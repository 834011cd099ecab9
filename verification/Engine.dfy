/** The desktop input engine. The engine thread presses and releases, the watcher
    releases when a stop latch is set, and a person, the monitor or the caller may set
    a latch at any moment; every method lets the others run where its thread can be
    overtaken. Backend calls succeed or fail freely. */
module Engine {
  import opened Common

  import opened Pointer

  /** What a press holds down: a mouse button, a UTF-16 unit or a key. */
  datatype Input = Button(name: string) | Unit(code: nat) | KeyCode(code: nat)

  /** One press, told apart from every other one by its number. */
  datatype Serial = Serial(n: nat, what: Input)

  /** A call that acts on the desktop and holds nothing down. */
  datatype Call = Move(to: Point) | Wheel(delta: int) | Activate | Start

  /** What happened: a latch was set for the first time, a checkpoint was passed, a press
      passed its check, a press or a release was sent, another call was made, a wait ended. */
  datatype Event = Latch | Passed | Cleared(serial: Serial) | Down(serial: Serial) | Up(serial: Serial, ok: bool)
                 | Called(call: Call) | Waited(millis: int)

  datatype Error = Fine | HumanInput | MonitorFailed | Cancelled | Failure | NotReleased

  datatype Status = Rejected | Partial | Interrupted | Completed | Unknown

  /** The actions, with what the device answers: the points that coordinates are mapped to,
      the units of each rune, whether a window has to be activated twice, and how many
      polls pass before a launched program's window is there. */
  datatype Action =
    | Wait(millis: int)
    | Type(runes: seq<seq<nat>>)
    | Key(keys: seq<nat>)
    | Click(at: Point, button: string, count: int)
    | Scroll(at: Point, delta: int)
    | Drag(from: Point, dest: Point, button: string, millis: int)
    | Focus(twice: bool)
    | Launch(polls: nat, twice: bool)
    | UnknownAction

  datatype Result = Result(status: Status, failedIndex: int, completed: nat, error: Error)

  // ---------- the input lock and the latch ----------

  /** The latch, the press that holds the input lock between its check and its send, the
      number of the next press, and whether a checkpoint was passed since the last call, as
      a history leaves them. */
  datatype Lock = Lock(stopped: bool, sending: Option<Serial>, next: nat, ready: bool)

  /** What can happen next: a press is checked and sent under the input lock, a release
      needs the lock, another call needs a checkpoint of its own, and the latch waits for
      nobody. */
  predicate Allowed(l: Lock, e: Event) {
    match e
    case Latch => !l.stopped
    case Passed => !l.stopped && l.sending.None?
    case Cleared(p) => !l.stopped && l.sending.None? && p.n == l.next
    case Down(p) => l.sending == Some(p)
    case Up(_, _) => l.sending.None?
    case Called(_) => l.sending.None? && l.ready
    case Waited(_) => !l.stopped && l.sending.None?
  }

  function After(l: Lock, e: Event): Lock {
    match e
    case Latch => l.(stopped := true)
    case Passed => l.(ready := true)
    case Cleared(p) => l.(sending := Some(p), next := p.n + 1)
    case Down(_) => l.(sending := None)
    case Called(_) => l.(ready := false)
    case _ => l
  }

  function Replay(trace: seq<Event>): Lock {
    if trace == [] then Lock(false, None, 0, false) else After(Replay(trace[..|trace| - 1]), trace[|trace| - 1])
  }

  /** The histories of the input lock, step by step. */
  predicate Legal(trace: seq<Event>) {
    trace == [] || (Legal(trace[..|trace| - 1]) && Allowed(Replay(trace[..|trace| - 1]), trace[|trace| - 1]))
  }

  lemma LegalSnoc(trace: seq<Event>, e: Event)
    requires Legal(trace) && Allowed(Replay(trace), e)
    ensures Legal(trace + [e]) && Replay(trace + [e]) == After(Replay(trace), e)
  {
    assert (trace + [e])[..|trace|] == trace;
  }

  lemma {:induction false} LegalPrefix(trace: seq<Event>, n: nat)
    requires Legal(trace) && n <= |trace|
    ensures Legal(trace[..n])
  {
    if n < |trace| {
      LegalPrefix(trace[..|trace| - 1], n);
      assert trace[..|trace| - 1][..n] == trace[..n];
    } else {
      assert trace[..n] == trace;
    }
  }

  lemma {:induction false} LatchStays(trace: seq<Event>, l: nat)
    requires l < |trace| && trace[l] == Latch
    ensures Replay(trace).stopped
  {
    if l < |trace| - 1 {
      LatchStays(trace[..|trace| - 1], l);
    }
  }

  lemma {:induction false} StoppedIsLatched(trace: seq<Event>)
    ensures Replay(trace).stopped <==> Latch in trace
  {
    if trace != [] {
      StoppedIsLatched(trace[..|trace| - 1]);
      assert trace == trace[..|trace| - 1] + [trace[|trace| - 1]];
    }
  }

  /** What may come behind the latch: nothing that has to pass a check first. */
  predicate Late(e: Event) {
    e.Down? || e.Up? || e.Called?
  }

  lemma BehindLatch(trace: seq<Event>, l: nat, c: nat)
    requires Legal(trace) && l < c < |trace| && trace[l] == Latch
    ensures Late(trace[c])
  {
    LegalPrefix(trace, c + 1);
    assert trace[..c + 1][..c] == trace[..c];
    LatchStays(trace[..c], l);
  }

  /** The press at i passed its check, and nothing but the latch came in between. */
  ghost predicate JustCleared(trace: seq<Event>, i: nat)
    requires i < |trace| && trace[i].Down?
  {
    || (i >= 1 && trace[i - 1] == Cleared(trace[i].serial))
    || (i >= 2 && trace[i - 1] == Latch && trace[i - 2] == Cleared(trace[i].serial))
  }

  lemma SendingWasCleared(trace: seq<Event>, n: Serial)
    requires Legal(trace) && Replay(trace).sending == Some(n)
    ensures JustCleared(trace + [Down(n)], |trace|)
  {
    var front, last := trace[..|trace| - 1], trace[|trace| - 1];
    if last == Latch {
      assert front[|front| - 1] == trace[|trace| - 2];
    }
  }

  lemma DownWasCleared(trace: seq<Event>, i: nat)
    requires Legal(trace) && i < |trace| && trace[i].Down?
    ensures JustCleared(trace, i)
  {
    LegalPrefix(trace, i + 1);
    assert trace[..i + 1][..i] == trace[..i];
    SendingWasCleared(trace[..i], trace[i].serial);
  }

  /** A press is sent behind the latch if and only if the latch fell between that very
      press's check and its send. */
  lemma LateDownExactly(trace: seq<Event>, l: nat, i: nat)
    requires Legal(trace) && l < |trace| && i < |trace| && trace[l] == Latch && trace[i].Down?
    ensures l < i <==> l >= 1 && i == l + 1 && trace[l - 1] == Cleared(trace[i].serial)
  {
    DownWasCleared(trace, i);
    if l < i - 1 {
      BehindLatch(trace, l, i - 1);
    }
  }

  /** It can fall there: the person stops while a checked press is on its way. */
  lemma LateDownIsReachable(p: Serial)
    requires p.n == 0
    ensures Legal([Cleared(p), Latch, Down(p), Up(p, true)])
  {
    LegalSnoc([], Cleared(p));
    assert [] + [Cleared(p)] == [Cleared(p)];
    LegalSnoc([Cleared(p)], Latch);
    assert [Cleared(p)] + [Latch] == [Cleared(p), Latch];
    LegalSnoc([Cleared(p), Latch], Down(p));
    assert [Cleared(p), Latch] + [Down(p)] == [Cleared(p), Latch, Down(p)];
    LegalSnoc([Cleared(p), Latch, Down(p)], Up(p, true));
    assert [Cleared(p), Latch, Down(p)] + [Up(p, true)] == [Cleared(p), Latch, Down(p), Up(p, true)];
  }

  /** Behind the latch a call leaves nothing that allows another one. */
  lemma {:induction false} CallSpendsCheck(trace: seq<Event>, l: nat, i: nat)
    requires Legal(trace) && l < i < |trace| && trace[l] == Latch && trace[i].Called?
    ensures !Replay(trace).ready
  {
    var n := |trace| - 1;
    if i < n {
      CallSpendsCheck(trace[..n], l, i);
      BehindLatch(trace, l, n);
    }
  }

  /** At most one other call is made behind the latch: the one whose check came before it. */
  lemma OneLateCall(trace: seq<Event>, l: nat, i: nat, j: nat)
    requires Legal(trace) && l < i < j < |trace| && trace[l] == Latch && trace[i].Called?
    ensures !trace[j].Called?
  {
    LegalPrefix(trace, j + 1);
    assert trace[..j + 1][..j] == trace[..j];
    CallSpendsCheck(trace[..j], l, i);
  }

  ghost predicate AllCleared(trace: seq<Event>) {
    forall i :: 0 <= i < |trace| && trace[i].Down? ==> JustCleared(trace, i)
  }

  ghost predicate OnlyLate(trace: seq<Event>) {
    forall l, c :: 0 <= l < c < |trace| && trace[l] == Latch ==> Late(trace[c])
  }

  /** The press at i is behind the latch at l exactly if that fell between its check and its
      send. */
  ghost predicate LateDown(trace: seq<Event>, l: nat, i: nat)
    requires l < |trace| && i < |trace| && trace[i].Down?
  {
    l < i <==> l >= 1 && i == l + 1 && trace[l - 1] == Cleared(trace[i].serial)
  }

  ghost predicate LateDowns(trace: seq<Event>) {
    forall l, i :: 0 <= l < |trace| && 0 <= i < |trace| && trace[l] == Latch && trace[i].Down? ==>
      LateDown(trace, l, i)
  }

  ghost predicate LateCalls(trace: seq<Event>) {
    forall l, i, j :: 0 <= l < i < j < |trace| && trace[l] == Latch && trace[i].Called? ==> !trace[j].Called?
  }

  /** Every press had passed its own check, before any latch; the one press behind a latch
      is the one whose send the latch overtook; and no more than one other call is. */
  ghost predicate LatchSafe(trace: seq<Event>) {
    AllCleared(trace) && OnlyLate(trace) && LateDowns(trace) && LateCalls(trace)
  }

  lemma LegalCleared(trace: seq<Event>)
    requires Legal(trace)
    ensures AllCleared(trace)
  {
    forall i | 0 <= i < |trace| && trace[i].Down? ensures JustCleared(trace, i) {
      DownWasCleared(trace, i);
    }
  }

  lemma LegalDowns(trace: seq<Event>)
    requires Legal(trace)
    ensures LateDowns(trace)
  {
    forall l, i | 0 <= l < |trace| && 0 <= i < |trace| && trace[l] == Latch && trace[i].Down?
      ensures LateDown(trace, l, i) {
      LateDownExactly(trace, l, i);
    }
  }

  lemma LegalIsSafe(trace: seq<Event>)
    requires Legal(trace)
    ensures LatchSafe(trace)
  {
    LegalCleared(trace);
    LegalDowns(trace);
    forall l, c | 0 <= l < c < |trace| && trace[l] == Latch ensures Late(trace[c]) {
      BehindLatch(trace, l, c);
    }
    forall l, i, j | 0 <= l < i < j < |trace| && trace[l] == Latch && trace[i].Called? ensures !trace[j].Called? {
      OneLateCall(trace, l, i, j);
    }
  }

  // ---------- presses and their releases ----------

  /** A release of this press was attempted after position i. */
  ghost predicate Attempted(trace: seq<Event>, i: nat, serial: Serial) {
    exists j :: i < j < |trace| && trace[j].Up? && trace[j].serial == serial
  }

  ghost predicate Released(trace: seq<Event>, i: nat, serial: Serial) {
    exists j :: i < j < |trace| && trace[j] == Up(serial, true)
  }

  ghost predicate AllAttempted(trace: seq<Event>) {
    forall i {:trigger trace[i]} :: 0 <= i < |trace| && trace[i].Down? ==> Attempted(trace, i, trace[i].serial)
  }

  /** Every press so far is held, or has been released since. */
  ghost predicate Tracked(trace: seq<Event>, held: seq<Serial>) {
    forall i {:trigger trace[i]} :: 0 <= i < |trace| && trace[i].Down? ==>
      trace[i].serial in held || Released(trace, i, trace[i].serial)
  }

  lemma TrackedAfterOther(trace: seq<Event>, held: seq<Serial>, e: Event, more: seq<Serial>)
    requires Tracked(trace, held) && !e.Down?
    ensures Tracked(trace + [e], held + more)
  {
    var t := trace + [e];
    forall i | 0 <= i < |t| && t[i].Down? ensures t[i].serial in held + more || Released(t, i, t[i].serial) {
      assert t[i] == trace[i];
      if t[i].serial !in held {
        var j :| i < j < |trace| && trace[j] == Up(t[i].serial, true);
        assert t[j] == trace[j];
      }
    }
  }

  lemma TrackedAfterPress(trace: seq<Event>, held: seq<Serial>, serial: Serial)
    requires Tracked(trace, held) && serial in held
    ensures Tracked(trace + [Down(serial)], held)
  {
    var t := trace + [Down(serial)];
    forall i | 0 <= i < |t| && t[i].Down? ensures t[i].serial in held || Released(t, i, t[i].serial) {
      if i < |trace| && t[i].serial !in held {
        assert t[i] == trace[i];
        var j :| i < j < |trace| && trace[j] == Up(t[i].serial, true);
        assert t[j] == trace[j];
      }
    }
  }

  // ---------- a release, seen from outside ----------

  /** ups lets go of everything held, last pressed first. */
  ghost predicate LetsGo(ups: seq<Event>, held: seq<Serial>) {
    |ups| == |held| && forall k :: 0 <= k < |ups| ==> ups[k].Up? && ups[k].serial == held[|held| - 1 - k]
  }

  /** The serials whose release failed, in the order it was attempted. */
  function StillHeld(ups: seq<Event>): seq<Serial> {
    if ups == [] then []
    else StillHeld(ups[..|ups| - 1])
         + (if ups[|ups| - 1].Up? && !ups[|ups| - 1].ok then [ups[|ups| - 1].serial] else [])
  }

  lemma OneUpMore(ups: seq<Event>, held: seq<Serial>, i: nat, e: Event)
    requires i < |held| && LetsGo(ups, held[i + 1..]) && e.Up? && e.serial == held[i]
    ensures LetsGo(ups + [e], held[i..])
    ensures StillHeld(ups + [e]) == StillHeld(ups) + (if e.ok then [] else [held[i]])
  {
    assert (ups + [e])[..|ups|] == ups;
    assert held[i..] == [held[i]] + held[i + 1..];
  }

  lemma {:induction false} FailedOrReleased(ups: seq<Event>, k: nat)
    requires k < |ups| && ups[k].Up?
    ensures ups[k].ok || ups[k].serial in StillHeld(ups)
  {
    if k < |ups| - 1 {
      FailedOrReleased(ups[..|ups| - 1], k);
    }
  }

  lemma TrackedAfterRelease(trace: seq<Event>, held: seq<Serial>, ups: seq<Event>)
    requires Tracked(trace, held) && LetsGo(ups, held)
    ensures Tracked(trace + ups, StillHeld(ups))
    ensures AllAttempted(trace + ups)
  {
    var t := trace + ups;
    forall i | 0 <= i < |t| && t[i].Down?
      ensures Attempted(t, i, t[i].serial)
      ensures t[i].serial in StillHeld(ups) || Released(t, i, t[i].serial)
    {
      assert i < |trace|;
      var serial := trace[i].serial;
      if serial in held {
        var m :| 0 <= m < |held| && held[m] == serial;
        var k := |held| - 1 - m;
        FailedOrReleased(ups, k);
        assert t[|trace| + k] == ups[k];
      } else {
        var j :| i < j < |trace| && trace[j] == Up(serial, true);
        assert t[j] == trace[j];
      }
    }
  }

  lemma {:induction false} LegalUps(trace: seq<Event>, ups: seq<Event>)
    requires Legal(trace) && Replay(trace).sending.None? && forall k :: 0 <= k < |ups| ==> ups[k].Up?
    ensures Legal(trace + ups) && Replay(trace + ups) == Replay(trace)
  {
    if ups == [] {
      assert trace + ups == trace;
    } else {
      var front, last := ups[..|ups| - 1], ups[|ups| - 1];
      LegalUps(trace, front);
      OneMoreUp(trace + front, last);
      assert (trace + front) + [last] == trace + ups;
    }
  }

  lemma OneMoreUp(trace: seq<Event>, up: Event)
    requires Legal(trace) && Replay(trace).sending.None? && up.Up?
    ensures Legal(trace + [up]) && Replay(trace + [up]) == Replay(trace)
  {
    LegalSnoc(trace, up);
  }

  // ---------- what a run has done to the desktop ----------

  /** What counts of a history: presses, releases that went through, other calls, waits. */
  datatype Mark = Pressed(what: Input) | Freed(what: Input) | Made(call: Call) | Rested(millis: int)

  function MarksOf(e: Event): seq<Mark> {
    match e
    case Down(p) => [Pressed(p.what)]
    case Up(p, true) => [Freed(p.what)]
    case Called(c) => [Made(c)]
    case Waited(millis) => [Rested(millis)]
    case _ => []
  }

  function Marks(trace: seq<Event>): seq<Mark> {
    if trace == [] then [] else Marks(trace[..|trace| - 1]) + MarksOf(trace[|trace| - 1])
  }

  /** The inputs pressed, in order. */
  function Presses(marks: seq<Mark>): seq<Input> {
    if marks == [] then []
    else Presses(marks[..|marks| - 1])
         + (if marks[|marks| - 1].Pressed? then [marks[|marks| - 1].what] else [])
  }

  lemma MarksSnoc(trace: seq<Event>, e: Event)
    ensures Marks(trace + [e]) == Marks(trace) + MarksOf(e)
  {
    assert (trace + [e])[..|trace|] == trace;
  }

  lemma {:induction false} PressesAppend(a: seq<Mark>, b: seq<Mark>)
    ensures Presses(a + b) == Presses(a) + Presses(b)
  {
    if b == [] {
      assert a + b == a;
    } else {
      PressesAppend(a, b[..|b| - 1]);
      assert (a + b)[..|a + b| - 1] == a + b[..|b| - 1];
    }
  }

  /** A unit is typed by pressing and releasing it. */
  function Tap(u: nat): seq<Mark> {
    [Pressed(Unit(u)), Freed(Unit(u))]
  }

  /** The first n units of a rune, the first n runes of a text, the first n keys. */
  function Typed(units: seq<nat>, n: nat): seq<Mark>
    requires n <= |units|
  {
    if n == 0 then [] else Typed(units, n - 1) + Tap(units[n - 1])
  }

  function TypedAll(runes: seq<seq<nat>>, n: nat): seq<Mark>
    requires n <= |runes|
  {
    if n == 0 then [] else TypedAll(runes, n - 1) + Typed(runes[n - 1], |runes[n - 1]|)
  }

  function KeysDown(keys: seq<nat>, n: nat): seq<Mark>
    requires n <= |keys|
  {
    if n == 0 then [] else KeysDown(keys, n - 1) + [Pressed(KeyCode(keys[n - 1]))]
  }

  /** The first one pressed goes last. */
  function KeysUp(keys: seq<nat>): seq<Mark> {
    if keys == [] then [] else KeysUp(keys[1..]) + [Freed(KeyCode(keys[0]))]
  }

  function OneClick(button: string): seq<Mark> {
    [Pressed(Button(button)), Rested(20), Freed(Button(button))]
  }

  /** The first n of so many clicks, with a rest between every two. */
  function Clicks(button: string, n: nat, times: nat): seq<Mark> {
    if n == 0 then []
    else Clicks(button, n - 1, times) + OneClick(button) + Rest(n < times)
  }

  function Rest(more: bool): seq<Mark> {
    if more then [Rested(50)] else []
  }

  function Times(count: int): nat {
    if count > 1 then count else 1
  }

  /** The first n of the moves of a drag, each with its wait. */
  function Strokes(from: Point, dest: Point, millis: int, n: nat): seq<Mark> {
    if n == 0 then []
    else Strokes(from, dest, millis, n - 1) + Leg(from, dest, millis, n)
  }

  function Leg(from: Point, dest: Point, millis: int, n: nat): seq<Mark> {
    [Made(Move(DragPoint(from, dest, n, Steps(millis)))), Rested(Pause(millis))]
  }

  /** The press that begins a drag, and all its moves. */
  function Grip(from: Point, dest: Point, button: string, millis: int): seq<Mark> {
    [Pressed(Button(button))] + Strokes(from, dest, millis, Steps(millis))
  }

  function Rests(n: nat): seq<Mark> {
    if n == 0 then [] else Rests(n - 1) + [Rested(20)]
  }

  function Focused(twice: bool): seq<Mark> {
    if twice then [Made(Activate), Made(Activate), Rested(30)] else [Made(Activate)]
  }

  /** What a fully delivered action does, from its first to its last call. */
  function Script(a: Action): seq<Mark> {
    match a
    case Wait(millis) => [Rested(millis)]
    case Type(runes) => TypedAll(runes, |runes|)
    case Key(keys) => KeysDown(keys, |keys|) + [Rested(30)] + KeysUp(keys)
    case Click(at, button, count) => [Made(Move(at))] + Clicks(button, Times(count), Times(count))
    case Scroll(at, delta) => [Made(Move(at)), Made(Wheel(delta))]
    case Drag(from, dest, button, millis) =>
      [Made(Move(from))] + (Grip(from, dest, button, millis) + [Freed(Button(button))])
    case Focus(twice) => Focused(twice)
    case Launch(polls, twice) => [Made(Start)] + Rests(polls) + Focused(twice)
    case UnknownAction => []
  }

  function Scripts(actions: seq<Action>): (r: seq<seq<Mark>>)
    ensures |r| == |actions|
  {
    seq(|actions|, i requires 0 <= i < |actions| => Script(actions[i]))
  }

  function Joined(parts: seq<seq<Mark>>, n: nat): seq<Mark>
    requires n <= |parts|
  {
    if n == 0 then [] else Joined(parts, n - 1) + parts[n - 1]
  }

  /** The scripts of the first n actions. */
  function ScriptAll(actions: seq<Action>, n: nat): seq<Mark>
    requires n <= |actions|
  {
    Joined(Scripts(actions), n)
  }

  /** What a history comes to. */
  datatype Tally = Tally(marks: seq<Mark>, presses: seq<Input>)

  function Count(trace: seq<Event>): Tally {
    Tally(Marks(trace), Presses(Marks(trace)))
  }

  /** Between two moments the presses were the script's first ones, and without an error all
      of them; without a stop all of the script, and nothing else, was done. */
  ghost predicate Follows(before: Tally, now: Tally, script: seq<Mark>, err: Error, calm: bool) {
    && before.marks <= now.marks
    && before.presses <= now.presses <= before.presses + Presses(script)
    && (err == Fine ==> now.presses == before.presses + Presses(script))
    && (err == Fine && calm ==> now.marks == before.marks + script)
  }

  /** One part after another. */
  lemma Then(a: Tally, b: Tally, c: Tally, x: seq<Mark>, y: seq<Mark>, err: Error, before: bool, calm: bool)
    requires Follows(a, b, x, Fine, before) && Follows(b, c, y, err, calm) && (calm ==> before)
    ensures Follows(a, c, x + y, err, calm)
  {
    PressesAppend(x, y);
    Assoc(a.presses, Presses(x), Presses(y));
    Assoc(a.marks, x, y);
    assert a.presses <= b.presses <= c.presses;
  }

  lemma ThenNothing(a: Tally, b: Tally, c: Tally, x: seq<Mark>, err: Error, before: bool, calm: bool)
    requires Follows(a, b, x, Fine, before) && Follows(b, c, [], err, calm) && (calm ==> before)
    ensures Follows(a, c, x, err, calm)
  {
    Then(a, b, c, x, [], err, before, calm);
    assert x + [] == x;
  }

  lemma NothingThen(a: Tally, b: Tally, c: Tally, y: seq<Mark>, err: Error, before: bool, calm: bool)
    requires Follows(a, b, [], Fine, before) && Follows(b, c, y, err, calm) && (calm ==> before)
    ensures Follows(a, c, y, err, calm)
  {
    Then(a, b, c, [], y, err, before, calm);
    assert [] + y == y;
  }

  /** A part that failed is the end of it: nothing else of a longer script was done. */
  lemma Never(a: Tally, b: Tally, x: seq<Mark>, script: seq<Mark>, err: Error, calm: bool)
    requires Follows(a, b, x, err, calm) && err != Fine && x <= script
    ensures Follows(a, b, script, err, calm)
  {
    PressesAppend(x, script[|x|..]);
    assert x + script[|x|..] == script;
  }

  /** Releases after a failure. */
  lemma FailedThen(a: Tally, b: Tally, c: Tally, x: seq<Mark>, was: Error, err: Error, before: bool,
                   calm: bool)
    requires Follows(a, b, x, was, before) && err != Fine
    requires b.marks <= c.marks && c.presses == b.presses
    ensures Follows(a, c, x, err, calm)
  {}

  /** A release behind a part, whether that failed or not. */
  lemma ThenFreed(a: Tally, b: Tally, c: Tally, x: seq<Mark>, y: seq<Mark>, was: Error, err: Error,
                  before: bool, calm: bool)
    requires Follows(a, b, x, was, before) && (calm ==> before) && (err == was || err == NotReleased)
    requires b.marks <= c.marks && c.presses == b.presses
    requires was == Fine ==> Follows(b, c, y, err, calm)
    ensures Follows(a, c, x + y, err, calm)
  {
    if was == Fine {
      Then(a, b, c, x, y, err, before, calm);
    } else {
      FailedThen(a, b, c, x, was, err, before, calm);
      Never(a, c, x, x + y, err, calm);
    }
  }

  /** The marks of letting go of everything held, last pressed first. */
  function LetGo(held: seq<Serial>): seq<Mark> {
    if held == [] then [] else LetGo(held[1..]) + [Freed(held[0].what)]
  }

  lemma {:induction false} LetGoPressesNothing(held: seq<Serial>)
    ensures Presses(LetGo(held)) == []
  {
    if held != [] {
      LetGoPressesNothing(held[1..]);
      PressesAppend(LetGo(held[1..]), [Freed(held[0].what)]);
    }
  }

  lemma PressesOf(e: Event)
    ensures Presses(MarksOf(e)) == if e.Down? then [e.serial.what] else []
  {}

  lemma {:induction false} UpsPressNothing(before: seq<Event>, ups: seq<Event>)
    requires forall k :: 0 <= k < |ups| ==> ups[k].Up?
    ensures Marks(before) <= Marks(before + ups) && Count(before + ups).presses == Count(before).presses
  {
    if ups == [] {
      assert before + ups == before;
    } else {
      var front, last := ups[..|ups| - 1], ups[|ups| - 1];
      UpsPressNothing(before, front);
      assert before + ups == (before + front) + [last];
      CountSnoc(before + front, last);
    }
  }

  lemma LetsGoFront(ups: seq<Event>, held: seq<Serial>)
    requires LetsGo(ups, held) && ups != []
    ensures LetsGo(ups[..|ups| - 1], held[1..])
    ensures ups[|ups| - 1].Up? && ups[|ups| - 1].serial == held[0]
    ensures StillHeld(ups) == [] ==> ups[|ups| - 1].ok && StillHeld(ups[..|ups| - 1]) == []
  {
    var front := ups[..|ups| - 1];
    forall k | 0 <= k < |front| ensures front[k].Up? && front[k].serial == held[1..][|held| - 2 - k] {
      assert front[k] == ups[k];
    }
  }

  lemma {:induction false} FreedIsLetGo(ups: seq<Event>, held: seq<Serial>)
    requires LetsGo(ups, held) && StillHeld(ups) == []
    ensures Marks(ups) == LetGo(held)
  {
    if ups != [] {
      LetsGoFront(ups, held);
      FreedIsLetGo(ups[..|ups| - 1], held[1..]);
    }
  }

  lemma {:induction false} MarksAppend(a: seq<Event>, b: seq<Event>)
    ensures Marks(a + b) == Marks(a) + Marks(b)
  {
    if b == [] {
      assert a + b == a;
    } else {
      var front, last := b[..|b| - 1], b[|b| - 1];
      MarksAppend(a, front);
      MarksOfLast(a + b, a + front, last);
      Assoc(Marks(a), Marks(front), MarksOf(last));
    }
  }

  lemma MarksOfLast(trace: seq<Event>, front: seq<Event>, last: Event)
    requires trace == front + [last]
    ensures Marks(trace) == Marks(front) + MarksOf(last)
  {
    assert trace[..|trace| - 1] == front;
  }

  lemma UpsMarks(before: seq<Event>, ups: seq<Event>, held: seq<Serial>)
    requires LetsGo(ups, held) && StillHeld(ups) == []
    ensures Marks(before + ups) == Marks(before) + LetGo(held)
  {
    MarksAppend(before, ups);
    FreedIsLetGo(ups, held);
  }

  lemma {:induction false} TypedPrefix(units: seq<nat>, k: nat, n: nat)
    requires k <= n <= |units|
    ensures Typed(units, k) <= Typed(units, n)
  {
    if k < n { TypedPrefix(units, k, n - 1); }
  }

  lemma {:induction false} TypedAllPrefix(runes: seq<seq<nat>>, k: nat, n: nat)
    requires k <= n <= |runes|
    ensures TypedAll(runes, k) <= TypedAll(runes, n)
  {
    if k < n { TypedAllPrefix(runes, k, n - 1); }
  }

  lemma {:induction false} KeysDownPrefix(keys: seq<nat>, k: nat, n: nat)
    requires k <= n <= |keys|
    ensures KeysDown(keys, k) <= KeysDown(keys, n)
  {
    if k < n { KeysDownPrefix(keys, k, n - 1); }
  }

  lemma {:induction false} ClicksPrefix(button: string, k: nat, n: nat, times: nat)
    requires k <= n <= times
    ensures Clicks(button, k, times) <= Clicks(button, n, times)
  {
    if k < n { ClicksPrefix(button, k, n - 1, times); }
  }

  lemma {:induction false} StrokesPrefix(from: Point, dest: Point, millis: int, k: nat, n: nat)
    requires k <= n
    ensures Strokes(from, dest, millis, k) <= Strokes(from, dest, millis, n)
  {
    if k < n { StrokesPrefix(from, dest, millis, k, n - 1); }
  }

  lemma {:induction false} RestsPrefix(k: nat, n: nat)
    requires k <= n
    ensures Rests(k) <= Rests(n)
  {
    if k < n { RestsPrefix(k, n - 1); }
  }

  lemma {:induction false} JoinedPrefix(parts: seq<seq<Mark>>, k: nat, n: nat)
    requires k <= n <= |parts|
    ensures Joined(parts, k) <= Joined(parts, n)
  {
    if k < n {
      JoinedPrefix(parts, k, n - 1);
      LongerPrefix(Joined(parts, k), Joined(parts, n - 1), parts[n - 1]);
    }
  }

  lemma LongerPrefix<T>(a: seq<T>, b: seq<T>, c: seq<T>)
    requires a <= b
    ensures a <= b + c
  {}

  lemma {:induction false} KeysUpPressNothing(keys: seq<nat>)
    ensures Presses(KeysUp(keys)) == []
  {
    if keys != [] {
      KeysUpPressNothing(keys[1..]);
      PressesAppend(KeysUp(keys[1..]), [Freed(KeyCode(keys[0]))]);
    }
  }

  lemma TypedStep(a: Tally, b: Tally, c: Tally, units: seq<nat>, k: nat, err: Error,
                  before: bool, calm: bool)
    requires k < |units| && Follows(a, b, Typed(units, k), Fine, before)
    requires Follows(b, c, Tap(units[k]), err, calm) && (calm ==> before)
    ensures Follows(a, c, if err == Fine then Typed(units, k + 1) else Typed(units, |units|), err, calm)
  {
    Then(a, b, c, Typed(units, k), Tap(units[k]), err, before, calm);
    TypedPrefix(units, k + 1, |units|);
    if err != Fine { Never(a, c, Typed(units, k + 1), Typed(units, |units|), err, calm); }
  }

  lemma TypedAllStep(a: Tally, b: Tally, c: Tally, runes: seq<seq<nat>>, k: nat, err: Error,
                     before: bool, calm: bool)
    requires k < |runes| && Follows(a, b, TypedAll(runes, k), Fine, before)
    requires Follows(b, c, Typed(runes[k], |runes[k]|), err, calm) && (calm ==> before)
    ensures Follows(a, c, if err == Fine then TypedAll(runes, k + 1) else TypedAll(runes, |runes|), err, calm)
  {
    Then(a, b, c, TypedAll(runes, k), Typed(runes[k], |runes[k]|), err, before, calm);
    TypedAllPrefix(runes, k + 1, |runes|);
    if err != Fine { Never(a, c, TypedAll(runes, k + 1), TypedAll(runes, |runes|), err, calm); }
  }

  lemma KeysStep(a: Tally, b: Tally, c: Tally, keys: seq<nat>, k: nat, err: Error,
                 before: bool, calm: bool)
    requires k < |keys| && Follows(a, b, KeysDown(keys, k), Fine, before)
    requires Follows(b, c, [Pressed(KeyCode(keys[k]))], err, calm) && (calm ==> before)
    ensures Follows(a, c, if err == Fine then KeysDown(keys, k + 1) else KeysDown(keys, |keys|), err, calm)
  {
    Then(a, b, c, KeysDown(keys, k), [Pressed(KeyCode(keys[k]))], err, before, calm);
    KeysDownPrefix(keys, k + 1, |keys|);
    if err != Fine { Never(a, c, KeysDown(keys, k + 1), KeysDown(keys, |keys|), err, calm); }
  }

  lemma ClicksStep(a: Tally, b: Tally, c: Tally, button: string, k: nat, times: nat, err: Error,
                   before: bool, calm: bool)
    requires k < times && Follows(a, b, Clicks(button, k, times), Fine, before)
    requires Follows(b, c, OneClick(button) + Rest(k + 1 < times), err, calm) && (calm ==> before)
    ensures Follows(a, c, if err == Fine then Clicks(button, k + 1, times) else Clicks(button, times, times), err, calm)
  {
    Then(a, b, c, Clicks(button, k, times), OneClick(button) + Rest(k + 1 < times), err, before, calm);
    Assoc(Clicks(button, k, times), OneClick(button), Rest(k + 1 < times));
    ClicksPrefix(button, k + 1, times, times);
    if err != Fine { Never(a, c, Clicks(button, k + 1, times), Clicks(button, times, times), err, calm); }
  }

  lemma StrokesStep(a: Tally, b: Tally, c: Tally, from: Point, dest: Point, millis: int, k: nat, n: nat,
                    err: Error, before: bool, calm: bool)
    requires k < n && Follows(a, b, Strokes(from, dest, millis, k), Fine, before)
    requires Follows(b, c, Leg(from, dest, millis, k + 1), err, calm) && (calm ==> before)
    ensures Follows(a, c, Strokes(from, dest, millis, if err == Fine then k + 1 else n), err, calm)
  {
    Then(a, b, c, Strokes(from, dest, millis, k), Leg(from, dest, millis, k + 1), err, before, calm);
    StrokesPrefix(from, dest, millis, k + 1, n);
    if err != Fine { Never(a, c, Strokes(from, dest, millis, k + 1), Strokes(from, dest, millis, n), err, calm); }
  }

  lemma RestsStep(a: Tally, b: Tally, c: Tally, k: nat, n: nat, err: Error,
                  before: bool, calm: bool)
    requires k < n && Follows(a, b, Rests(k), Fine, before)
    requires Follows(b, c, [Rested(20)], err, calm) && (calm ==> before)
    ensures Follows(a, c, if err == Fine then Rests(k + 1) else Rests(n), err, calm)
  {
    Then(a, b, c, Rests(k), [Rested(20)], err, before, calm);
    RestsPrefix(k + 1, n);
    if err != Fine { Never(a, c, Rests(k + 1), Rests(n), err, calm); }
  }

  /** Exactly the keys are held, in their order. */
  predicate Holds(held: seq<Serial>, keys: seq<nat>) {
    |held| == |keys| && forall i :: 0 <= i < |keys| ==> held[i].what == KeyCode(keys[i])
  }

  lemma HoldsOneMore(was: seq<Serial>, held: seq<Serial>, keys: seq<nat>, k: nat)
    requires k < |keys| && Holds(was, keys[..k])
    requires |held| == |was| + 1 && held[..|was|] == was && held[|was|].what == KeyCode(keys[k])
    ensures Holds(held, keys[..k + 1])
  {
    forall i | 0 <= i < k + 1 ensures held[i].what == KeyCode(keys[..k + 1][i]) {
      if i < k { assert held[i] == was[i] && was[i].what == KeyCode(keys[..k][i]); }
    }
  }

  lemma {:induction false} LetKeysGo(held: seq<Serial>, keys: seq<nat>)
    requires Holds(held, keys)
    ensures LetGo(held) == KeysUp(keys)
  {
    if keys != [] { LetKeysGo(held[1..], keys[1..]); }
  }

  // ---------- the books ----------

  /** A history of the input lock, how it leaves the lock, what it came to, and what of its
      presses is still held. */
  ghost predicate Books(trace: seq<Event>, held: seq<Serial>, tally: Tally, l: Lock) {
    // quantified, so that only a proof which speaks of the trace's legality looks inside
    forall t {:trigger Legal(t)} :: t == trace ==> Legal(t) && Replay(t) == l && Tracked(t, held) && tally == Count(t)
  }

  /** The tally after one more event. */
  function Plus(t: Tally, e: Event): Tally {
    Tally(t.marks + MarksOf(e), if e.Down? then t.presses + [e.serial.what] else t.presses)
  }

  lemma CountSnoc(trace: seq<Event>, e: Event)
    ensures Count(trace + [e]) == Plus(Count(trace), e)
  {
    MarksSnoc(trace, e);
    PressesAppend(Marks(trace), MarksOf(e));
    PressesOf(e);
  }

  lemma BooksAfter(trace: seq<Event>, held: seq<Serial>, t: Tally, l: Lock, e: Event, more: seq<Serial>)
    requires Books(trace, held, t, l) && Allowed(l, e) && !e.Down?
    ensures Books(trace + [e], held + more, Plus(t, e), After(l, e))
  {
    assert Legal(trace);
    LegalSnoc(trace, e);
    CountSnoc(trace, e);
    TrackedAfterOther(trace, held, e, more);
  }

  lemma BooksAfterPress(trace: seq<Event>, held: seq<Serial>, t: Tally, l: Lock, p: Serial)
    requires Books(trace, held, t, l) && Allowed(l, Down(p)) && p in held
    ensures Books(trace + [Down(p)], held, Plus(t, Down(p)), After(l, Down(p)))
  {
    assert Legal(trace);
    LegalSnoc(trace, Down(p));
    CountSnoc(trace, Down(p));
    TrackedAfterPress(trace, held, p);
  }

  lemma BooksAfterRelease(trace: seq<Event>, held: seq<Serial>, t: Tally, l: Lock, ups: seq<Event>)
    requires Books(trace, held, t, l) && l.sending.None? && LetsGo(ups, held)
    ensures Books(trace + ups, StillHeld(ups), Count(trace + ups), l) && AllAttempted(trace + ups)
    ensures (trace + ups)[|trace|..] == ups && (held == [] ==> trace + ups == trace && StillHeld(ups) == [])
    ensures t.marks <= Count(trace + ups).marks && Count(trace + ups).presses == t.presses
    ensures StillHeld(ups) == [] ==> Count(trace + ups).marks == t.marks + LetGo(held)
  {
    assert Legal(trace);
    TrackedAfterRelease(trace, held, ups);
    LegalUps(trace, ups);
    UpsPressNothing(trace, ups);
    if StillHeld(ups) == [] { UpsMarks(trace, ups, held); }
  }

  lemma NothingYet(trace: seq<Event>, held: seq<Serial>, t: Tally, l: Lock)
    requires Books(trace, held, t, l) && trace in {[], [Latch]}
    ensures t == Tally([], []) && !l.ready
  {
    assert Legal(trace);
  }

  lemma OnePress(x: Input)
    ensures Presses([Pressed(x)]) == [x]
  {
    assert [Pressed(x)][..0] == [];
  }

  lemma NewBooks(stopped: bool)
    ensures Books(if stopped then [Latch] else [], [], Tally([], []), Lock(stopped, None, 0, false))
  {
    if stopped {
      LegalSnoc([], Latch);
      assert [] + [Latch] == [Latch];
      CountSnoc([], Latch);
    }
  }

  class Desk {
    var human: bool
    var monitorFailed: bool
    var cancelled: bool
    var held: seq<Serial>
    var releaseFailed: bool
    var watching: bool
    var next: nat
    ghost var trace: seq<Event>
    ghost var tally: Tally
    ghost var lock: Lock

    /** The history so far is one of the input lock, which sending holds, and every press
        in it is held or was released. */
    ghost predicate Locked(sending: Option<Serial>)
      reads this
    {
      && Books(trace, held, tally, lock)
      && lock.stopped == Stopped() && lock.sending == sending && lock.next == next
    }

    ghost predicate Valid()
      reads this
    {
      Locked(None)
    }

    /** A checkpoint has been passed that no call has used. */
    ghost predicate Ready()
      reads this
    {
      lock.ready
    }

    predicate Stopped()
      reads this
    {
      human || monitorFailed || cancelled
    }

    /** Nothing is held, unless a stop came in between. */
    ghost predicate Idle()
      reads this
    {
      Stopped() || held == []
    }

    /** The latches are never reset; and behind a latch that was set when the step began, with
        no checkpoint to use and nothing to release, nothing happens. */
    twostate predicate Forward()
      reads this
    {
      && (old(human) ==> human) && (old(Stopped()) ==> Stopped())
      && (old(Stopped()) && !old(Ready()) ==> !Ready() && (old(held) == [] ==> held == [] && trace == old(trace)))
    }

    /** The step has followed the script, to its end unless it failed. */
    twostate predicate Did(script: seq<Mark>, err: Error)
      reads this
    {
      Follows(old(tally), tally, script, err, !Stopped())
    }

    constructor (human: bool, monitorFailed: bool, cancelled: bool)
      ensures Valid() && held == [] && trace == (if Stopped() then [Latch] else []) && !watching
      ensures this.human == human && this.monitorFailed == monitorFailed && this.cancelled == cancelled
    {
      this.human, this.monitorFailed, this.cancelled := human, monitorFailed, cancelled;
      held, releaseFailed, watching, next := [], false, false, 0;
      trace := if human || monitorFailed || cancelled then [Latch] else [];
      tally, lock := Tally([], []), Lock(human || monitorFailed || cancelled, None, 0, false);
      new;
      NewBooks(Stopped());
    }

    /** A person touches an input device, the monitor fails or the caller cancels. */
    method SomeoneMayStop(ghost sending: Option<Serial>)
      requires Locked(sending)
      modifies this`human, this`monitorFailed, this`cancelled, this`trace, this`tally, this`lock
      ensures Locked(sending) && Forward() && Ready() == old(Ready())
      ensures trace == old(trace) + (if Stopped() && !old(Stopped()) then [Latch] else [])
      ensures tally == old(tally)
    {
      ghost var was := Stopped();
      if * { human := true; }
      if * { monitorFailed := true; }
      if * { cancelled := true; }
      if !was && Stopped() {
        BooksAfter(trace, held, tally, lock, Latch, []);
        assert held + [] == held;
        trace, tally, lock := trace + [Latch], Plus(tally, Latch), After(lock, Latch);
      }
    }

    /** Signal.Check: a person's stop is named before any other. */
    method Check() returns (err: Error)
      ensures err == Fine <==> !Stopped()
      ensures err == HumanInput <==> human
      ensures err in {Fine, HumanInput, MonitorFailed, Cancelled}
    {
      err := if human then HumanInput else if monitorFailed then MonitorFailed
             else if cancelled then Cancelled else Fine;
    }

    /** The event e, which changes nothing that is held, becomes part of the history. */
    ghost method Note(e: Event)
      requires Valid() && Allowed(lock, e) && (e.Passed? || e.Called? || e.Waited?)
      modifies this`trace, this`tally, this`lock
      ensures Valid() && trace == old(trace) + [e] && tally == Plus(old(tally), e)
      ensures Ready() <==> e.Passed? || (e.Waited? && old(Ready()))
    {
      BooksAfter(trace, held, tally, lock, e, []);
      assert held + [] == held;
      trace, tally, lock := trace + [e], Plus(tally, e), After(lock, e);
    }

    /** inputState.press, under the input lock: nobody else presses or releases, but a
        latch may be set between the check and the send. */
    method Press(x: Input) returns (err: Error)
      requires Valid()
      modifies this
      ensures Valid() && Forward() && watching == old(watching) && Ready() == old(Ready())
      ensures old(Stopped()) ==> err != Fine && trace == old(trace) && held == old(held)
      ensures !old(Stopped()) ==> held == old(held) + [Serial(old(next), x)]
      ensures !old(Stopped()) ==>
        trace == old(trace) + [Cleared(Serial(old(next), x))] + (if Stopped() then [Latch] else [])
                 + [Down(Serial(old(next), x))]
      ensures tally == if old(Stopped()) then old(tally)
                       else Tally(old(tally).marks + [Pressed(x)], old(tally).presses + [x])
    {
      err := Check();
      if err != Fine { return; }
      ghost var p := Serial(next, x);
      BooksAfter(trace, held, tally, lock, Cleared(p), [p]);
      held := held + [Serial(next, x)];
      trace, tally, lock := trace + [Cleared(p)], Plus(tally, Cleared(p)), After(lock, Cleared(p));
      next := next + 1;
      SomeoneMayStop(Some(p));
      BooksAfterPress(trace, held, tally, lock, p);
      trace, tally, lock := trace + [Down(p)], Plus(tally, Down(p)), After(lock, Down(p));
      if * { err := Failure; }
    }

    /** The same, as a part of a script. */
    method PressOne(x: Input) returns (err: Error)
      requires Valid()
      modifies this
      ensures Valid() && Forward() && Did([Pressed(x)], err) && Ready() == old(Ready())
      ensures err == Fine && !Stopped() ==> |held| == |old(held)| + 1 && held[..|old(held)|] == old(held)
      ensures err == Fine && !Stopped() ==> held[|old(held)|].what == x
    {
      err := Press(x);
      OnePress(x);
    }

    /** One attempt for everything held, last pressed first. */
    method SendUps() returns (remaining: seq<Serial>, ghost ups: seq<Event>)
      modifies this`releaseFailed
      ensures LetsGo(ups, held) && remaining == StillHeld(ups)
    {
      remaining, ups := [], [];
      var i := |held|;
      while i > 0
        invariant 0 <= i <= |held|
        invariant LetsGo(ups, held[i..]) && remaining == StillHeld(ups)
      {
        i := i - 1;
        var sent: bool := *;
        ghost var e := Up(held[i], sent);
        OneUpMore(ups, held, i, e);
        if !sent {
          releaseFailed := true;
          remaining := remaining + [held[i]];
        }
        ups := ups + [e];
      }
      assert held[0..] == held;
    }

    /** inputState.release, under the input lock. */
    method Release() returns (ok: bool)
      requires Valid()
      modifies this`held, this`releaseFailed, this`trace, this`tally, this`lock
      ensures Valid() && Forward() && Ready() == old(Ready())
      ensures old(trace) <= trace && LetsGo(trace[|old(trace)|..], old(held))
      ensures held == StillHeld(trace[|old(trace)|..])
      ensures ok <==> held == []
      ensures AllAttempted(trace)
      ensures old(held) == [] ==> trace == old(trace) && ok
      ensures old(tally).marks <= tally.marks && tally.presses == old(tally).presses
      ensures ok ==> tally.marks == old(tally).marks + LetGo(old(held))
    {
      var remaining, ups := SendUps();
      BooksAfterRelease(trace, held, tally, lock, ups);
      trace := trace + ups;
      tally := Count(trace);
      held := remaining;
      if |remaining| == 0 {
        releaseFailed := false;
      }
      ok := |remaining| == 0;
    }

    /** The other threads: a latch may be set, and the watcher may then release. */
    method Overtaken()
      requires Valid()
      modifies this`human, this`monitorFailed, this`cancelled, this`held, this`releaseFailed, this`watching
      modifies this`trace, this`tally, this`lock
      ensures Valid() && Forward() && Ready() == old(Ready())
      ensures watching ==> old(watching)
      ensures !Stopped() ==> trace == old(trace) && held == old(held)
      ensures old(tally).marks <= tally.marks && tally.presses == old(tally).presses
      ensures old(held) == [] ==> held == [] && tally.marks == old(tally).marks
      ensures Did([], Fine)
    {
      SomeoneMayStop(None);
      var scheduled: bool := *;
      if watching && Stopped() && scheduled {
        var _ := Release();
        watching := false;
      }
    }

    /** checkpoint: the latches, a display check, the latches again. */
    method Checkpoint() returns (err: Error)
      requires Valid()
      modifies this
      ensures Valid() && Forward() && Did([], err)
      ensures err == Fine ==> Ready() && !Stopped()
      ensures !Stopped() ==> held == old(held)
    {
      Overtaken();
      err := Check();
      if err != Fine { return; }
      Overtaken();
      err := Check();
      var fails: bool := *;
      if err == Fine && fails { err := Failure; }
      if err == Fine { Note(Passed); }
    }

    /** wait: checkpoints until the time is over, however many that takes. */
    method WaitFor(millis: int) returns (err: Error)
      requires Valid()
      modifies this
      ensures Valid() && Forward() && Did([Rested(millis)], err)
      ensures err == Fine ==> Ready() && !Stopped()
      ensures !Stopped() ==> held == old(held)
    {
      ghost var start := tally;
      err := Checkpoint();
      var slices: nat := *;
      while err == Fine && slices > 0
        invariant Valid() && Forward() && Follows(start, tally, [], err, !Stopped())
        invariant err == Fine ==> Ready() && !Stopped()
        invariant !Stopped() ==> held == old(held)
        decreases slices
      {
        ghost var mid := tally;
        err := Checkpoint();
        ThenNothing(start, mid, tally, [], err, true, !Stopped());
        slices := slices - 1;
      }
      if err == Fine {
        Note(Waited(millis));
      } else {
        Never(start, tally, [], [Rested(millis)], err, !Stopped());
      }
    }

    /** A query of the windows: no input, but the others move on, and it may fail. */
    method Ask() returns (err: Error)
      requires Valid()
      modifies this
      ensures Valid() && Forward() && Did([], err) && Ready() == old(Ready())
      ensures !Stopped() ==> held == old(held)
    {
      Overtaken();
      var fails: bool := *;
      err := if fails then Failure else Fine;
    }

    /** foreground: the query between two looks at the latches. */
    method Foreground() returns (err: Error)
      requires Valid()
      modifies this
      ensures Valid() && Forward() && Did([], err)
      ensures !Stopped() ==> held == old(held)
    {
      ghost var start := tally;
      err := Checkpoint();
      if err != Fine { return; }
      ghost var mid := tally;
      err := Ask();
      ThenNothing(start, mid, tally, [], err, true, !Stopped());
      var stop := Check();
      if stop != Fine {
        err := stop;
      }
    }

    /** A call that acts on the desktop, behind a checkpoint of its own. */
    method Act(c: Call) returns (err: Error)
      requires Valid() && Ready()
      modifies this
      ensures Valid() && Forward() && Did([Made(c)], err)
      ensures !Stopped() ==> held == old(held)
    {
      Overtaken();
      Note(Called(c));
      PressesAppend(old(tally).marks, [Made(c)]);
      var fails: bool := *;
      err := if fails then Failure else Fine;
    }

    /** A release, after what came before it has ended with was. */
    method LetAllGo(was: Error, ghost expected: seq<Mark>) returns (err: Error)
      requires Valid() && Presses(expected) == [] && (was == Fine && !Stopped() ==> LetGo(held) == expected)
      modifies this
      ensures Valid() && Forward()
      ensures err == was || err == NotReleased
      ensures err != NotReleased ==> held == []
      ensures old(tally).marks <= tally.marks && tally.presses == old(tally).presses
      ensures was == Fine ==> Did(expected, err)
    {
      Overtaken();
      LetGoPressesNothing(held);
      var ok := Release();
      err := if ok then was else NotReleased;
    }

    /** One unit of text, pressed and released. */
    method TapUnit(u: nat) returns (err: Error)
      requires Valid() && Idle()
      modifies this
      ensures Valid() && Forward() && Did(Tap(u), err)
      ensures err == Fine ==> Idle()
    {
      ghost var start := tally;
      err := PressOne(Unit(u));
      if err != Fine {
        Never(start, tally, [Pressed(Unit(u))], Tap(u), err, !Stopped());
        return;
      }
      ghost var mid, calm := tally, !Stopped();
      err := LetAllGo(Fine, [Freed(Unit(u))]);
      Then(start, mid, tally, [Pressed(Unit(u))], [Freed(Unit(u))], err, calm, !Stopped());
      assert [Pressed(Unit(u))] + [Freed(Unit(u))] == Tap(u);
    }

    method TypeRune(units: seq<nat>) returns (err: Error)
      requires Valid() && Idle()
      modifies this
      ensures Valid() && Forward() && Did(Typed(units, |units|), err)
      ensures err == Fine ==> Idle()
    {
      ghost var start := tally;
      err := Foreground();
      if err != Fine {
        Never(start, tally, [], Typed(units, |units|), err, !Stopped());
        return;
      }
      for u := 0 to |units|
        invariant Valid() && Forward() && err == Fine && Idle()
        invariant Follows(start, tally, Typed(units, u), Fine, !Stopped())
      {
        ghost var mid, calm := tally, !Stopped();
        err := TapUnit(units[u]);
        TypedStep(start, mid, tally, units, u, err, calm, !Stopped());
        if err != Fine { return; }
      }
    }

    method TypeText(runes: seq<seq<nat>>) returns (err: Error)
      requires Valid() && Idle()
      modifies this
      ensures Valid() && Forward() && Did(TypedAll(runes, |runes|), err)
      ensures err == Fine ==> Idle()
    {
      ghost var start := tally;
      err := Fine;
      for r := 0 to |runes|
        invariant Valid() && Forward() && err == Fine && Idle()
        invariant Follows(start, tally, TypedAll(runes, r), Fine, !Stopped())
      {
        ghost var mid, calm := tally, !Stopped();
        err := TypeRune(runes[r]);
        TypedAllStep(start, mid, tally, runes, r, err, calm, !Stopped());
        if err != Fine { return; }
      }
    }

    /** One key more is pressed, in the foreground window. */
    method HoldKey(key: nat) returns (err: Error)
      requires Valid()
      modifies this
      ensures Valid() && Forward() && Did([Pressed(KeyCode(key))], err)
      ensures err == Fine && !Stopped() ==>
        |held| == |old(held)| + 1 && held[..|old(held)|] == old(held) && held[|old(held)|].what == KeyCode(key)
    {
      ghost var start := tally;
      err := Foreground();
      if err != Fine {
        Never(start, tally, [], [Pressed(KeyCode(key))], err, !Stopped());
        return;
      }
      ghost var mid, calm := tally, !Stopped();
      err := PressOne(KeyCode(key));
      NothingThen(start, mid, tally, [Pressed(KeyCode(key))], err, calm, !Stopped());
    }

    method HoldKeys(keys: seq<nat>) returns (err: Error)
      requires Valid() && Idle()
      modifies this
      ensures Valid() && Forward() && Did(KeysDown(keys, |keys|), err)
      ensures err == Fine && !Stopped() ==> Holds(held, keys)
    {
      ghost var start := tally;
      err := Fine;
      for k := 0 to |keys|
        invariant Valid() && Forward() && err == Fine
        invariant !Stopped() ==> Holds(held, keys[..k])
        invariant Follows(start, tally, KeysDown(keys, k), Fine, !Stopped())
      {
        ghost var mid, calm, was := tally, !Stopped(), held;
        err := HoldKey(keys[k]);
        if err == Fine && !Stopped() { HoldsOneMore(was, held, keys, k); }
        KeysStep(start, mid, tally, keys, k, err, calm, !Stopped());
        if err != Fine { return; }
      }
      assert keys[..|keys|] == keys;
    }

    /** The keys, and the rest that lets them be seen. */
    method HoldAndWait(keys: seq<nat>) returns (err: Error)
      requires Valid() && Idle()
      modifies this
      ensures Valid() && Forward() && Did(KeysDown(keys, |keys|) + [Rested(30)], err)
      ensures err == Fine && !Stopped() ==> Holds(held, keys)
    {
      ghost var start := tally;
      var known: bool := *;
      if !known {
        Never(start, tally, [], KeysDown(keys, |keys|) + [Rested(30)], Failure, !Stopped());
        return Failure;
      }
      err := HoldKeys(keys);
      if err != Fine {
        Never(start, tally, KeysDown(keys, |keys|), KeysDown(keys, |keys|) + [Rested(30)], err, !Stopped());
        return;
      }
      ghost var mid, calm := tally, !Stopped();
      err := WaitFor(30);
      Then(start, mid, tally, KeysDown(keys, |keys|), [Rested(30)], err, calm, !Stopped());
    }

    method PressKeys(keys: seq<nat>) returns (err: Error)
      requires Valid() && Idle()
      modifies this
      ensures Valid() && Forward() && Did(KeysDown(keys, |keys|) + [Rested(30)] + KeysUp(keys), err)
      ensures err == Fine ==> Idle()
    {
      ghost var start, down := tally, KeysDown(keys, |keys|) + [Rested(30)];
      var was := HoldAndWait(keys);
      ghost var mid, calm := tally, !Stopped();
      KeysUpPressNothing(keys);
      if was == Fine && calm { LetKeysGo(held, keys); }
      err := LetAllGo(was, KeysUp(keys));
      ThenFreed(start, mid, tally, down, KeysUp(keys), was, err, calm, !Stopped());
    }

    method HoldButton(button: string) returns (err: Error)
      requires Valid() && Idle()
      modifies this
      ensures Valid() && Forward() && Did([Pressed(Button(button)), Rested(20)], err)
      ensures err == Fine && !Stopped() ==> LetGo(held) == [Freed(Button(button))]
    {
      ghost var start, down := tally, Pressed(Button(button));
      err := PressOne(Button(button));
      if err != Fine {
        Never(start, tally, [down], [down, Rested(20)], err, !Stopped());
        return;
      }
      ghost var mid, calm := tally, !Stopped();
      err := WaitFor(20);
      Then(start, mid, tally, [down], [Rested(20)], err, calm, !Stopped());
      assert [down] + [Rested(20)] == [down, Rested(20)];
    }

    method ClickOnce(button: string) returns (err: Error)
      requires Valid() && Idle()
      modifies this
      ensures Valid() && Forward() && Did(OneClick(button), err)
      ensures err == Fine ==> Idle()
    {
      ghost var start, down, up := tally, [Pressed(Button(button)), Rested(20)], [Freed(Button(button))];
      assert down + up == OneClick(button);
      err := HoldButton(button);
      if err != Fine {
        Never(start, tally, down, OneClick(button), err, !Stopped());
        return;
      }
      ghost var mid, calm := tally, !Stopped();
      err := LetAllGo(Fine, up);
      Then(start, mid, tally, down, up, err, calm, !Stopped());
    }

    /** A click behind a check of its target, and the rest before the next one. */
    method ClickAndRest(button: string, last: bool) returns (err: Error)
      requires Valid() && Idle()
      modifies this
      ensures Valid() && Forward() && Did(OneClick(button) + Rest(!last), err)
      ensures err == Fine ==> Idle()
    {
      ghost var start, script := tally, OneClick(button) + Rest(!last);
      err := CheckTarget();
      if err != Fine {
        Never(start, tally, [], script, err, !Stopped());
        return;
      }
      ghost var mid, calm := tally, !Stopped();
      err := ClickOnce(button);
      NothingThen(start, mid, tally, OneClick(button), err, calm, !Stopped());
      assert OneClick(button) + [] == OneClick(button);
      if err != Fine {
        Never(start, tally, OneClick(button), script, err, !Stopped());
        return;
      }
      if !last {
        mid, calm := tally, !Stopped();
        err := WaitFor(50);
        Then(start, mid, tally, OneClick(button), [Rested(50)], err, calm, !Stopped());
      }
    }

    /** checkpoint, and whether the window under the pointer is still the one that was seen. */
    method CheckTarget() returns (err: Error)
      requires Valid()
      modifies this
      ensures Valid() && Forward() && Did([], err)
      ensures err == Fine ==> Ready()
      ensures !Stopped() ==> held == old(held)
    {
      ghost var start := tally;
      err := Checkpoint();
      if err != Fine { return; }
      ghost var mid := tally;
      err := Ask();
      ThenNothing(start, mid, tally, [], err, true, !Stopped());
    }

    /** The next one of so many clicks. */
    method NextClick(button: string, n: nat, times: nat, ghost start: Tally) returns (err: Error)
      requires Valid() && Idle() && n < times && Follows(start, tally, Clicks(button, n, times), Fine, !Stopped())
      modifies this
      ensures Valid() && Forward()
      ensures Follows(start, tally, Clicks(button, if err == Fine then n + 1 else times, times), err, !Stopped())
      ensures err == Fine ==> Idle()
    {
      ghost var mid, calm := tally, !Stopped();
      err := ClickAndRest(button, n + 1 == times);
      ClicksStep(start, mid, tally, button, n, times, err, calm, !Stopped());
    }

    method ClickTimes(button: string, count: int) returns (err: Error)
      requires Valid() && Idle()
      modifies this
      ensures Valid() && Forward() && Did(Clicks(button, Times(count), Times(count)), err)
      ensures err == Fine ==> Idle()
    {
      ghost var start := tally;
      var times := if count < 1 then 1 else count;
      err := Fine;
      for n := 0 to times
        invariant Valid() && Forward() && err == Fine && Idle()
        invariant Follows(start, tally, Clicks(button, n, times), Fine, !Stopped())
      {
        err := NextClick(button, n, times, start);
        if err != Fine { return; }
      }
    }

    /** Move the pointer to a place that is checked first. */
    method MoveTo(at: Point) returns (err: Error)
      requires Valid() && Ready()
      modifies this
      ensures Valid() && Forward() && Did([Made(Move(at))], err)
      ensures !Stopped() ==> held == old(held)
    {
      ghost var start := tally;
      err := Ask();
      if err != Fine {
        Never(start, tally, [], [Made(Move(at))], err, !Stopped());
        return;
      }
      ghost var mid, calm := tally, !Stopped();
      err := Act(Move(at));
      NothingThen(start, mid, tally, [Made(Move(at))], err, calm, !Stopped());
    }

    /** A checkpoint, and then the call. */
    method CheckedAct(c: Call) returns (err: Error)
      requires Valid()
      modifies this
      ensures Valid() && Forward() && Did([Made(c)], err)
      ensures !Stopped() ==> held == old(held)
    {
      ghost var start := tally;
      err := Checkpoint();
      if err != Fine {
        Never(start, tally, [], [Made(c)], err, !Stopped());
        return;
      }
      ghost var mid := tally;
      err := Act(c);
      NothingThen(start, mid, tally, [Made(c)], err, true, !Stopped());
    }

    method ClickAt(at: Point, button: string, count: int) returns (err: Error)
      requires Valid() && Idle() && Ready()
      modifies this
      ensures Valid() && Forward() && Did(Script(Click(at, button, count)), err)
      ensures err == Fine ==> Idle()
    {
      ghost var start, clicks := tally, Clicks(button, Times(count), Times(count));
      err := MoveTo(at);
      if err != Fine {
        Never(start, tally, [Made(Move(at))], [Made(Move(at))] + clicks, err, !Stopped());
        return;
      }
      ghost var mid, calm := tally, !Stopped();
      err := ClickTimes(button, count);
      Then(start, mid, tally, [Made(Move(at))], clicks, err, calm, !Stopped());
    }

    method ScrollAt(at: Point, delta: int) returns (err: Error)
      requires Valid() && Idle() && Ready()
      modifies this
      ensures Valid() && Forward() && Did(Script(Scroll(at, delta)), err)
      ensures err == Fine ==> Idle()
    {
      ghost var start := tally;
      err := MoveTo(at);
      if err != Fine {
        Never(start, tally, [Made(Move(at))], Script(Scroll(at, delta)), err, !Stopped());
        return;
      }
      ghost var mid, calm := tally, !Stopped();
      err := CheckedAct(Wheel(delta));
      Then(start, mid, tally, [Made(Move(at))], [Made(Wheel(delta))], err, calm, !Stopped());
      assert [Made(Move(at))] + [Made(Wheel(delta))] == Script(Scroll(at, delta));
    }

    /** One move of a drag, and its wait. */
    method Stroke(to: Point, pause: int) returns (err: Error)
      requires Valid()
      modifies this
      ensures Valid() && Forward() && Did([Made(Move(to)), Rested(pause)], err)
      ensures !Stopped() ==> held == old(held)
    {
      ghost var start := tally;
      err := CheckedAct(Move(to));
      if err != Fine {
        Never(start, tally, [Made(Move(to))], [Made(Move(to)), Rested(pause)], err, !Stopped());
        return;
      }
      ghost var mid, calm := tally, !Stopped();
      err := WaitFor(pause);
      Then(start, mid, tally, [Made(Move(to))], [Rested(pause)], err, calm, !Stopped());
      assert [Made(Move(to))] + [Rested(pause)] == [Made(Move(to)), Rested(pause)];
    }

    method StrokeAlong(from: Point, dest: Point, millis: int) returns (err: Error)
      requires Valid()
      modifies this
      ensures Valid() && Forward() && Did(Strokes(from, dest, millis, Steps(millis)), err)
      ensures err == Fine && !Stopped() ==> held == old(held)
    {
      ghost var start, before := tally, held;
      var points := Path(from, dest, millis);
      var pause := Quo(if millis == 0 then 300 else millis, |points|);
      err := Fine;
      for n := 0 to |points|
        invariant Valid() && Forward() && err == Fine && (!Stopped() ==> held == before)
        invariant Follows(start, tally, Strokes(from, dest, millis, n), Fine, !Stopped())
      {
        ghost var mid, calm := tally, !Stopped();
        err := Stroke(points[n], pause);
        StrokesStep(start, mid, tally, from, dest, millis, n, |points|, err, calm, !Stopped());
        if err != Fine { return; }
      }
    }

    /** The press that begins a drag, once its end is mapped, and the moves. */
    method HoldAndStroke(from: Point, dest: Point, button: string, millis: int) returns (err: Error)
      requires Valid() && Idle()
      modifies this
      ensures Valid() && Forward()
      ensures Did(Grip(from, dest, button, millis), err)
      ensures err == Fine && !Stopped() ==> LetGo(held) == [Freed(Button(button))]
    {
      ghost var start, down, path := tally, [Pressed(Button(button))], Strokes(from, dest, millis, Steps(millis));
      var mapped: bool := *;
      if !mapped {
        Never(start, tally, [], down + path, Failure, !Stopped());
        return Failure;
      }
      err := PressOne(Button(button));
      if err != Fine {
        Never(start, tally, down, down + path, err, !Stopped());
        return;
      }
      ghost var mid, calm := tally, !Stopped();
      err := StrokeAlong(from, dest, millis);
      Then(start, mid, tally, down, path, err, calm, !Stopped());
    }

    method DragAlong(from: Point, dest: Point, button: string, millis: int) returns (err: Error)
      requires Valid() && Idle()
      modifies this
      ensures Valid() && Forward() && (err == Fine ==> Idle())
      ensures Did(Grip(from, dest, button, millis) + [Freed(Button(button))], err)
    {
      ghost var start := tally;
      ghost var down := Grip(from, dest, button, millis);
      var was := HoldAndStroke(from, dest, button, millis);
      ghost var mid, calm := tally, !Stopped();
      err := LetAllGo(was, [Freed(Button(button))]);
      ThenFreed(start, mid, tally, down, [Freed(Button(button))], was, err, calm, !Stopped());
    }

    method DragFrom(from: Point, dest: Point, button: string, millis: int) returns (err: Error)
      requires Valid() && Idle() && Ready()
      modifies this
      ensures Valid() && Forward() && Did(Script(Drag(from, dest, button, millis)), err)
      ensures err == Fine ==> Idle()
    {
      ghost var start, rest := tally, Grip(from, dest, button, millis) + [Freed(Button(button))];
      err := MoveTo(from);
      if err != Fine {
        Never(start, tally, [Made(Move(from))], [Made(Move(from))] + rest, err, !Stopped());
        return;
      }
      ghost var mid, calm := tally, !Stopped();
      err := DragAlong(from, dest, button, millis);
      Then(start, mid, tally, [Made(Move(from))], rest, err, calm, !Stopped());
    }

    /** focusWindow: a second activation, and a rest, when the first one did not take. */
    method FocusWindow(twice: bool) returns (err: Error)
      requires Valid() && Idle()
      modifies this
      ensures Valid() && Forward() && Did(Focused(twice), err)
      ensures err == Fine ==> Idle()
    {
      ghost var start := tally;
      var refused: bool := *;
      if refused {
        Never(start, tally, [], Focused(twice), Failure, !Stopped());
        return Failure;
      }
      err := CheckedAct(Activate);
      if err != Fine {
        Never(start, tally, [Made(Activate)], Focused(twice), err, !Stopped());
        return;
      }
      if twice {
        ghost var mid, calm := tally, !Stopped();
        err := ActivateAgain();
        Then(start, mid, tally, [Made(Activate)], [Made(Activate), Rested(30)], err, calm, !Stopped());
        assert [Made(Activate)] + [Made(Activate), Rested(30)] == Focused(true);
      }
    }

    method ActivateAgain() returns (err: Error)
      requires Valid() && Idle()
      modifies this
      ensures Valid() && Forward() && Did([Made(Activate), Rested(30)], err)
      ensures err == Fine ==> Idle()
    {
      ghost var start := tally;
      err := CheckedAct(Activate);
      if err != Fine {
        Never(start, tally, [Made(Activate)], [Made(Activate), Rested(30)], err, !Stopped());
        return;
      }
      ghost var mid, calm := tally, !Stopped();
      err := WaitFor(30);
      Then(start, mid, tally, [Made(Activate)], [Rested(30)], err, calm, !Stopped());
      assert [Made(Activate)] + [Rested(30)] == [Made(Activate), Rested(30)];
      if err != Fine { return; }
      mid := tally;
      err := Ask();
      ThenNothing(start, mid, tally, [Made(Activate), Rested(30)], err, true, !Stopped());
    }

    /** Polls until the program's window is there. */
    method AwaitWindow(polls: nat) returns (err: Error)
      requires Valid() && Idle()
      modifies this
      ensures Valid() && Forward() && Did(Rests(polls), err)
      ensures err == Fine ==> Idle()
    {
      ghost var start := tally;
      err := CheckTarget();
      if err != Fine { RestsPrefix(0, polls); Never(start, tally, [], Rests(polls), err, !Stopped()); return; }
      for k := 0 to polls
        invariant Valid() && Forward() && err == Fine && Idle()
        invariant Follows(start, tally, Rests(k), Fine, !Stopped())
      {
        ghost var mid, calm := tally, !Stopped();
        err := PollAgain();
        RestsStep(start, mid, tally, k, polls, err, calm, !Stopped());
        if err != Fine { return; }
      }
    }

    /** A wait, and the next look at the windows, or the time-out. */
    method PollAgain() returns (err: Error)
      requires Valid() && Idle()
      modifies this
      ensures Valid() && Forward() && Did([Rested(20)], err)
      ensures err == Fine ==> Idle()
    {
      ghost var start := tally;
      err := WaitFor(20);
      if err != Fine { return; }
      ghost var mid := tally;
      err := CheckTarget();
      ThenNothing(start, mid, tally, [Rested(20)], err, true, !Stopped());
    }

    method LaunchProgram(polls: nat, twice: bool) returns (err: Error)
      requires Valid() && Idle() && Ready()
      modifies this
      ensures Valid() && Forward() && Did(Script(Launch(polls, twice)), err)
      ensures err == Fine ==> Idle()
    {
      ghost var start, script := tally, Script(Launch(polls, twice));
      err := Act(Start);
      if err != Fine {
        Never(start, tally, [Made(Start)], script, err, !Stopped());
        return;
      }
      ghost var mid, calm := tally, !Stopped();
      err := AwaitWindow(polls);
      Then(start, mid, tally, [Made(Start)], Rests(polls), err, calm, !Stopped());
      if err != Fine {
        Never(start, tally, [Made(Start)] + Rests(polls), script, err, !Stopped());
        return;
      }
      mid, calm := tally, !Stopped();
      err := FocusWindow(twice);
      Then(start, mid, tally, [Made(Start)] + Rests(polls), Focused(twice), err, calm, !Stopped());
    }

    /** The one matching window of the screenshot is activated. */
    method FocusMatch(twice: bool) returns (err: Error)
      requires Valid() && Idle()
      modifies this
      ensures Valid() && Forward() && Did(Focused(twice), err)
      ensures err == Fine ==> Idle()
    {
      var matches: bool := *;
      if !matches {
        Never(tally, tally, [], Focused(twice), Failure, !Stopped());
        return Failure;
      }
      err := FocusWindow(twice);
    }

    /** What the action's own code does behind its checkpoint. */
    method Deliver(a: Action) returns (err: Error)
      requires Valid() && Idle() && Ready()
      modifies this
      ensures Valid() && Forward() && Did(Script(a), err)
      ensures err == Fine ==> Idle()
    {
      match a
      case Wait(millis) => err := WaitFor(millis);
      case Type(runes) => err := TypeText(runes);
      case Key(keys) => err := PressKeys(keys);
      case Click(at, button, count) => err := ClickAt(at, button, count);
      case Scroll(at, delta) => err := ScrollAt(at, delta);
      case Drag(from, dest, button, millis) => err := DragFrom(from, dest, button, millis);
      case Focus(twice) => err := FocusMatch(twice);
      case Launch(polls, twice) => err := LaunchProgram(polls, twice);
      case UnknownAction => err := Failure;
    }

    /** One action. Whatever happens, its presses are the first ones of its script; without an
        error they are all of them, and without a stop the whole script has been played. */
    method Perform(a: Action) returns (err: Error)
      requires Valid() && Idle()
      modifies this
      ensures Valid() && Forward() && Did(Script(a), err)
      ensures err == Fine ==> Idle()
    {
      ghost var start := tally;
      err := Checkpoint();
      if err != Fine {
        Never(start, tally, [], Script(a), err, !Stopped());
        return;
      }
      ghost var mid := tally;
      err := Deliver(a);
      NothingThen(start, mid, tally, Script(a), err, true, !Stopped());
    }
  }

  function Failed(res: Result, index: int, err: Error): Result {
    res.(status := if err == HumanInput then Interrupted else Partial, failedIndex := index, error := err)
  }

  /** How far a run has come: the completed actions were played in full before anything else,
      and nothing was pressed that is not in the scripts, or not in their order. */
  ghost predicate Played(t: Tally, actions: seq<Action>, res: Result)
    requires res.completed <= |actions|
  {
    && ScriptAll(actions, res.completed) <= t.marks
    && t.presses <= Presses(ScriptAll(actions, |actions|))
    && (res.status == Completed ==> t.marks == ScriptAll(actions, |actions|) + [Rested(300)])
    && (res.status == Rejected ==> t.marks == [])
  }

  lemma NothingPlayed(actions: seq<Action>, res: Result)
    requires res.completed == 0 && res.status != Completed
    ensures Played(Tally([], []), actions, res)
  {}

  lemma EndsPlayed(before: Tally, now: Tally, actions: seq<Action>, res: Result)
    requires res.completed == |actions| && res.status != Rejected && before.marks <= now.marks
    requires ScriptAll(actions, |actions|) <= before.marks && now.presses == Presses(ScriptAll(actions, |actions|))
    requires res.status == Completed ==> now.marks == ScriptAll(actions, |actions|) + [Rested(300)]
    ensures Played(now, actions, res)
  {}

  /** Releases and latches behind the run change nothing of that. */
  lemma StaysPlayed(before: Tally, now: Tally, actions: seq<Action>, was: Result, res: Result)
    requires was.completed == res.completed <= |actions| && Played(before, actions, was)
    requires before.marks <= now.marks && now.presses == before.presses
    requires res.status == Completed || res.status == Rejected ==> res.status == was.status && now.marks == before.marks
    ensures Played(now, actions, res)
  {}

  /** Engine.Run, from the monitors' start to the result. In every interleaving: every
      press that was sent - even one whose send failed - gets a later release attempt;
      every press had passed its check before any latch, and the only one sent behind a
      latch is the one whose send it overtook; a status other than unknown means that
      nothing is left held. The completed actions were played in full, a completed run is
      all of the scripts, a rejected one nothing, and no other press was ever made. */
  method Run(desk: Desk, actions: seq<Action>) returns (res: Result)
    requires desk.Valid() && desk.held == [] && desk.trace == (if desk.Stopped() then [Latch] else [])
    modifies desk
    ensures desk.Valid() && AllAttempted(desk.trace) && !desk.watching
    ensures LatchSafe(desk.trace) && (desk.Stopped() <==> Latch in desk.trace)
    ensures old(desk.Stopped()) ==> desk.trace == [Latch]
    ensures res.status != Unknown ==> desk.held == [] && Tracked(desk.trace, [])
    ensures res.status == Completed ==> res.completed == |actions| && !desk.human
    ensures desk.human ==> res.status == Interrupted || res.status == Unknown
    ensures res.completed <= |actions| && Played(desk.tally, actions, res)
    ensures res.failedIndex >= 0 ==> res.failedIndex == res.completed
  {
    res := Result(Rejected, -1, 0, Fine);
    NothingYet(desk.trace, desk.held, desk.tally, desk.lock);
    var begins: bool := *;
    if begins {
      res := Watched(desk, actions, res);
    } else {
      desk.watching := false;
      res := res.(error := Failure);
      NothingPlayed(actions, res);
    }
    ghost var before, was := desk.tally, res;
    res := Conclude(desk, res);
    StaysPlayed(before, desk.tally, actions, was, res);
  }

  /** The part in which the watcher runs. */
  method Watched(desk: Desk, actions: seq<Action>, start: Result) returns (res: Result)
    requires desk.Valid() && desk.held == [] && desk.trace == (if desk.Stopped() then [Latch] else [])
    requires start == Result(Rejected, -1, 0, Fine)
    modifies desk
    ensures desk.Valid() && AllAttempted(desk.trace) && !desk.watching && desk.Forward()
    ensures res.status != Unknown ==> desk.held == []
    ensures res.completed <= |actions| && Played(desk.tally, actions, res)
    ensures res.status == Completed ==> res.completed == |actions|
    ensures res.failedIndex >= 0 ==> res.failedIndex == res.completed
  {
    desk.watching := true;
    NothingYet(desk.trace, desk.held, desk.tally, desk.lock);
    res := RunActions(desk, actions, start);
    res := DeferredRelease(desk, actions, res);
  }

  /** The release behind everything; the watcher is joined first. */
  method DeferredRelease(desk: Desk, actions: seq<Action>, was: Result) returns (res: Result)
    requires desk.Valid() && was.completed <= |actions| && Played(desk.tally, actions, was) && was.status != Rejected
    requires was.status == Completed ==> desk.held == []
    modifies desk
    ensures desk.Valid() && AllAttempted(desk.trace) && !desk.watching && desk.Forward()
    ensures res.status != Unknown ==> desk.held == []
    ensures res == was || res == was.(status := Unknown, error := NotReleased)
    ensures Played(desk.tally, actions, res)
  {
    ghost var before := desk.tally;
    if desk.watching {
      desk.Overtaken();
    }
    desk.watching := false;
    var ok := desk.Release();
    res := was;
    if !ok {
      res := res.(status := Unknown, error := NotReleased);
    }
    StaysPlayed(before, desk.tally, actions, was, res);
  }

  /** The monitor is joined last, and the reason chosen after it. */
  method Conclude(desk: Desk, res: Result) returns (r: Result)
    requires desk.Valid() && AllAttempted(desk.trace)
    modifies desk
    ensures desk.Valid() && AllAttempted(desk.trace) && LatchSafe(desk.trace) && Tracked(desk.trace, desk.held)
    ensures desk.Stopped() <==> Latch in desk.trace
    ensures desk.held == old(desk.held) && desk.watching == old(desk.watching) && desk.Forward()
    ensures desk.tally == old(desk.tally)
    ensures r.completed == res.completed && r.failedIndex == res.failedIndex
    ensures r.status == if res.status != Unknown && desk.human then Interrupted else res.status
  {
    ghost var before := desk.trace;
    desk.SomeoneMayStop(None);
    StillAttempted(before, desk.trace);
    LegalIsSafe(desk.trace);
    StoppedIsLatched(desk.trace);
    r := res;
    if desk.human {
      r := r.(status := if r.status == Unknown then Unknown else Interrupted, error := HumanInput);
    }
  }

  lemma StillAttempted(before: seq<Event>, now: seq<Event>)
    requires AllAttempted(before) && (now == before || now == before + [Latch])
    ensures AllAttempted(now)
  {
    forall i | 0 <= i < |now| && now[i].Down? ensures Attempted(now, i, now[i].serial) {
      assert now[i] == before[i];
      var j :| i < j < |before| && before[j].Up? && before[j].serial == before[i].serial;
      assert now[j] == before[j];
    }
  }

  /** The loop over the actions, up to the first failure. */
  method EachAction(desk: Desk, actions: seq<Action>, start: Result, ghost parts: seq<seq<Mark>>) returns (res: Result)
    requires desk.Valid() && desk.Idle() && desk.tally == Tally([], []) && start == Result(Rejected, -1, 0, Fine)
    requires parts == Scripts(actions)
    modifies desk
    ensures desk.Valid() && desk.Forward() && res.completed <= |actions|
    ensures if res.error == Fine then res == start.(completed := |actions|)
            else res == Failed(start.(completed := res.completed), res.completed, res.error)
    ensures res.error == Fine ==> desk.Idle()
    ensures Follows(old(desk.tally), desk.tally, Joined(parts, |parts|), res.error, !desk.Stopped())
    ensures Joined(parts, res.completed) <= desk.tally.marks
  {
    res := start;
    ghost var before := desk.tally;
    for i := 0 to |actions|
      invariant desk.Valid() && desk.Forward() && desk.Idle() && res == start.(completed := i)
      invariant i > 0 ==> !desk.Stopped()
      invariant Follows(before, desk.tally, Joined(parts, i), Fine, !desk.Stopped())
      invariant Joined(parts, i) <= desk.tally.marks
    {
      var err := TryAction(desk, actions, i, before, parts);
      if err != Fine { return Failed(res, i, err); }
      res := res.(completed := res.completed + 1);
    }
  }

  /** The i-th action; a failure is the end of all the scripts. */
  method TryAction(desk: Desk, actions: seq<Action>, i: nat, ghost before: Tally, ghost parts: seq<seq<Mark>>)
    returns (err: Error)
    requires desk.Valid() && desk.Idle() && before == Tally([], []) && i < |actions| && parts == Scripts(actions)
    requires Follows(before, desk.tally, Joined(parts, i), Fine, !desk.Stopped())
    requires Joined(parts, i) <= desk.tally.marks
    modifies desk
    ensures desk.Valid() && desk.Forward()
    ensures err == Fine ==> Follows(before, desk.tally, Joined(parts, i + 1), Fine, !desk.Stopped())
    ensures err != Fine ==> Follows(before, desk.tally, Joined(parts, |parts|), err, !desk.Stopped())
    ensures Joined(parts, i) <= desk.tally.marks
    ensures err == Fine ==> desk.Idle() && !desk.Stopped() && Joined(parts, i + 1) <= desk.tally.marks
  {
    err := StepOn(desk, actions[i], before, Joined(parts, i), parts[i]);
    if err != Fine {
      JoinedPrefix(parts, i + 1, |parts|);
      Never(before, desk.tally, Joined(parts, i + 1), Joined(parts, |parts|), err, !desk.Stopped());
    }
  }

  /** One action more, and the look at the latches behind it. */
  method StepOn(desk: Desk, a: Action, ghost before: Tally, ghost done: seq<Mark>, ghost script: seq<Mark>)
    returns (err: Error)
    requires desk.Valid() && desk.Idle() && before == Tally([], []) && script == Script(a)
    requires Follows(before, desk.tally, done, Fine, !desk.Stopped()) && done <= desk.tally.marks
    modifies desk
    ensures desk.Valid() && desk.Forward()
    ensures Follows(before, desk.tally, done + script, err, !desk.Stopped())
    ensures done <= desk.tally.marks
    ensures err == Fine ==> desk.Idle() && !desk.Stopped() && done + script <= desk.tally.marks
  {
    ghost var mid, calm := desk.tally, !desk.Stopped();
    err := desk.Perform(a);
    Then(before, mid, desk.tally, done, script, err, calm, !desk.Stopped());
    if err == Fine {
      err := LookBehind(desk, before, done + script);
    }
  }

  /** The look at the latches behind an action that was delivered. */
  method LookBehind(desk: Desk, ghost before: Tally, ghost done: seq<Mark>) returns (err: Error)
    requires desk.Valid() && desk.Idle() && before == Tally([], [])
    requires Follows(before, desk.tally, done, Fine, !desk.Stopped())
    modifies desk
    ensures desk.Valid() && desk.Forward() && old(desk.tally).marks <= desk.tally.marks
    ensures Follows(before, desk.tally, done, err, !desk.Stopped())
    ensures err == Fine ==> desk.Idle() && !desk.Stopped() && done <= desk.tally.marks
  {
    ghost var played, quiet := desk.tally, !desk.Stopped();
    desk.Overtaken();
    ThenNothing(before, played, desk.tally, done, Fine, quiet, !desk.Stopped());
    err := desk.Check();
  }

  /** The first checkpoint, the actions, and the rest behind them. */
  method Deliver(desk: Desk, actions: seq<Action>, start: Result) returns (res: Result)
    requires desk.Valid() && desk.Idle() && desk.tally == Tally([], []) && start == Result(Rejected, -1, 0, Fine)
    modifies desk
    ensures desk.Valid() && desk.Forward() && res.completed <= |actions| && Played(desk.tally, actions, res)
    ensures res.status in {Completed, Partial, Interrupted}
    ensures res.status == Completed ==> res.completed == |actions| && desk.held == []
    ensures res.failedIndex >= 0 ==> res.failedIndex == res.completed
  {
    var err := desk.Checkpoint();
    if err != Fine {
      return Failed(start, 0, err);
    }
    res := EachAction(desk, actions, start, Scripts(actions));
    if res.error == Fine {
      ghost var before := desk.tally;
      res := RestBehind(desk, ScriptAll(actions, |actions|), res);
      EndsPlayed(before, desk.tally, actions, res);
    }
  }

  /** The rest behind the last action. */
  method RestBehind(desk: Desk, ghost script: seq<Mark>, was: Result) returns (res: Result)
    requires desk.Valid() && desk.Idle() && was.failedIndex == -1
    requires Follows(Tally([], []), desk.tally, script, Fine, !desk.Stopped())
    modifies desk
    ensures desk.Valid() && desk.Forward()
    ensures res.status in {Completed, Partial, Interrupted} && res.completed == was.completed && res.failedIndex == -1
    ensures old(desk.tally).marks <= desk.tally.marks && desk.tally.presses == Presses(script)
    ensures res.status == Completed ==> desk.held == [] && desk.tally.marks == script + [Rested(300)]
  {
    var err := desk.WaitFor(300);
    assert [Rested(300)][..0] == [];
    res := was.(status := Completed);
    if err != Fine {
      res := Failed(was, -1, err);
    }
  }

  method RunActions(desk: Desk, actions: seq<Action>, start: Result) returns (res: Result)
    requires desk.Valid() && desk.Idle() && desk.tally == Tally([], []) && start == Result(Rejected, -1, 0, Fine)
    modifies desk
    ensures desk.Valid() && desk.Forward() && res.completed <= |actions| && Played(desk.tally, actions, res)
    ensures res.status != Rejected && (res.status == Completed ==> res.completed == |actions| && desk.held == [])
    ensures res.failedIndex >= 0 ==> res.failedIndex == res.completed
  {
    res := Deliver(desk, actions, start);
    ghost var before, was := desk.tally, res;
    desk.Overtaken();
    var ok := desk.Release();
    if !ok {
      res := res.(status := Unknown, error := NotReleased);
    }
    StaysPlayed(before, desk.tally, actions, was, res);
  }
}
