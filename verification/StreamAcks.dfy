/** The stop-and-wait acknowledgement of stdin: the writer that holds the input lock,
    the reader goroutine, a peer that acknowledges each WRTE once, and whoever closes
    the connection, as interleaved steps. */
module StreamAcks {

  /** Where the writer is: outside a packet, waiting in the final select, or between a
      failed send and the close it causes. */
  datatype Phase = Idle | Waiting | SendFailed

  datatype State = State(
    phase: Phase,
    toPeer: nat,        // WRTEs the peer has and has not acknowledged
    toReader: nat,      // OKAYs on their way back
    inHand: nat,        // an OKAY received and not yet put in the channel
    channel: nat,       // the ack channel, of capacity one
    connClosed: bool, readerStopped: bool, done: bool,
    overflow: bool)     // "unexpected stdin acknowledgement"

  const INITIAL := State(Idle, 0, 0, 0, 0, false, false, false, false)

  datatype Step =
    | Send | SendFails(delivered: bool) | CloseAfterFailure | TakeAck | SeeDone
    | PeerAcks | Receive | Push | ReaderStops | ReaderCloses | SignalDone
    | Abort

  predicate Enabled(s: State, step: Step) {
    match step
    case Send => s.phase == Idle && !s.connClosed
    case SendFails(delivered) => s.phase == Idle && (delivered ==> !s.connClosed)
    case CloseAfterFailure => s.phase == SendFailed
    case TakeAck => s.phase == Waiting && s.channel > 0
    case SeeDone => s.phase == Waiting && s.done
    case PeerAcks => s.toPeer > 0
    case Receive => s.toReader > 0 && s.inHand == 0 && !s.connClosed && !s.readerStopped
    case Push => s.inHand > 0 && !s.readerStopped
    case ReaderStops => s.inHand == 0 && !s.readerStopped
    case ReaderCloses => s.readerStopped && !s.connClosed
    case SignalDone => s.readerStopped && s.connClosed && !s.done
    case Abort => true
  }

  function Perform(s: State, step: Step): State
    requires Enabled(s, step)
  {
    match step
    case Send => s.(phase := Waiting, toPeer := s.toPeer + 1)
    case SendFails(delivered) => s.(phase := SendFailed, toPeer := if delivered then s.toPeer + 1 else s.toPeer)
    case CloseAfterFailure => s.(phase := Idle, connClosed := true)
    case TakeAck => s.(phase := Idle, channel := s.channel - 1)
    case SeeDone => s.(phase := Idle)
    case PeerAcks => s.(toPeer := s.toPeer - 1, toReader := s.toReader + 1)
    case Receive => s.(toReader := s.toReader - 1, inHand := 1)
    case Push =>
      if s.channel < 1 then s.(inHand := 0, channel := s.channel + 1)
      else s.(inHand := 0, overflow := true, readerStopped := true)
    case ReaderStops => s.(readerStopped := true)
    case ReaderCloses => s.(connClosed := true)
    case SignalDone => s.(done := true)
    case Abort => s.(connClosed := true)
  }

  function Run(s: State, steps: seq<Step>): State
    decreases |steps|
  {
    if steps == [] then s
    else Run(if Enabled(s, steps[0]) then Perform(s, steps[0]) else s, steps[1..])
  }

  /** Packets sent whose acknowledgement the writer has not taken, wherever it is now. */
  function Outstanding(s: State): nat {
    s.toPeer + s.toReader + s.inHand + s.channel
  }

  ghost predicate Inv(s: State) {
    && Outstanding(s) <= 1 && !s.overflow
    && (s.done ==> s.connClosed && s.readerStopped)
    && (!s.connClosed && s.phase == Idle ==> Outstanding(s) == 0)
    && (!s.connClosed && s.phase == Waiting ==> Outstanding(s) == 1)
    && (s.readerStopped ==> s.inHand == 0)
  }

  lemma InvKept(s: State, step: Step)
    requires Inv(s) && Enabled(s, step)
    ensures Inv(Perform(s, step))
  {}

  lemma {:induction false} InvAlong(s: State, steps: seq<Step>)
    requires Inv(s)
    ensures Inv(Run(s, steps))
    decreases |steps|
  {
    if steps != [] {
      if Enabled(s, steps[0]) {
        InvKept(s, steps[0]);
      }
      InvAlong(if Enabled(s, steps[0]) then Perform(s, steps[0]) else s, steps[1..]);
    }
  }

  /** In every interleaving at most one stdin packet is unacknowledged, and the channel
      never gets an acknowledgement it has no room for. */
  lemma OneOutstanding(steps: seq<Step>)
    ensures var t := Run(INITIAL, steps); Inv(t) && t.toPeer <= 1 && Outstanding(t) <= 1 && !t.overflow
  {
    InvAlong(INITIAL, steps);
  }

  // ---------- a blocked writer is released ----------

  predicate CanLeave(s: State) {
    Enabled(s, TakeAck) || Enabled(s, SeeDone)
  }

  /** The steps of the peer and the reader that bring an acknowledgement or the end closer. */
  predicate Progress(step: Step) {
    step.PeerAcks? || step.Receive? || step.Push? || step.ReaderStops? || step.ReaderCloses? || step.SignalDone?
  }

  function Distance(s: State): nat {
    3 * s.toPeer + 2 * s.toReader + s.inHand
    + (if s.readerStopped then 0 else 1) + (if s.connClosed then 0 else 1) + (if s.done then 0 else 1)
  }

  /** The peer or the reader can always move on until the writer can leave. */
  lemma NeverStuck(s: State) returns (step: Step)
    requires Inv(s) && s.phase == Waiting && !CanLeave(s)
    ensures Progress(step) && Enabled(s, step)
  {
    if s.inHand > 0 {
      step := Push;
    } else if s.toPeer > 0 {
      step := PeerAcks;
    } else if s.readerStopped {
      step := if s.connClosed then SignalDone else ReaderCloses;
    } else if s.connClosed {
      step := ReaderStops;
    } else {
      step := Receive;
    }
  }

  function ProgressSteps(steps: seq<Step>): nat {
    if steps == [] then 0 else (if Progress(steps[0]) then 1 else 0) + ProgressSteps(steps[1..])
  }

  ghost predicate StaysWaiting(s: State, steps: seq<Step>)
    decreases |steps|
  {
    s.phase == Waiting &&
    (steps != [] ==> Enabled(s, steps[0]) && StaysWaiting(Perform(s, steps[0]), steps[1..]))
  }

  lemma ProgressShortens(s: State, step: Step)
    requires Inv(s) && s.phase == Waiting && Enabled(s, step) && Perform(s, step).phase == Waiting
    ensures Distance(Perform(s, step)) + (if Progress(step) then 1 else 0) <= Distance(s)
  {}

  /** However the threads interleave, a writer stays blocked for no more progress steps
      than the distance of the state it waits in - at most six from the send. */
  lemma {:induction false} BlockedBriefly(s: State, steps: seq<Step>)
    requires Inv(s) && StaysWaiting(s, steps)
    ensures ProgressSteps(steps) <= Distance(s) - Distance(Run(s, steps)) <= 6
    decreases |steps|
  {
    if steps != [] {
      InvKept(s, steps[0]);
      ProgressShortens(s, steps[0]);
      BlockedBriefly(Perform(s, steps[0]), steps[1..]);
    }
  }
}
