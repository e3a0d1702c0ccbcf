/** The hardware seen by the sketch, as data.
    Every pin write, delay, pin read and info log line becomes an `Event` appended to a
    trace; the functions at the end observe a trace (its log lines, the level it leaves
    on the status LED). */
module Io {

  newtype uint8 = x: int | 0 <= x < 0x100
  newtype uint16 = x: int | 0 <= x < 0x1_0000
  newtype uint32 = x: int | 0 <= x < 0x1_0000_0000

  /** Arduino digital pin numbers. */
  type Pin = nat

  const LedRed: Pin := 6
  const LedGreen: Pin := 7
  const ButtonPin: Pin := 11
  const DipSwitch: Pin := 12

  /** What `digitalRead` returns and `digitalWrite` takes: LOW (0) or HIGH (1). */
  datatype Level = Low | High

  /** The sketch's `RecordingMode`: the DIP switch reading cast to the enum. */
  datatype RecordingMode = Automatic | Manual

  function ModeOf(reading: Level): (mode: RecordingMode)
    ensures mode == Manual <==> reading == High
  {
    match reading
    case Low => Automatic
    case High => Manual
  }

  /** One reading of the real-time clock, with the field widths of the clock library. */
  datatype DateTime = DateTime(year: uint16, month: uint8, day: uint8,
                               hour: uint8, minute: uint8, second: uint8)

  /** What one MSG_INFO line reports; `Format.Text` gives its exact text. */
  datatype Note =
    | FrameNumber(frame: uint32)      // the number of a timelapse frame
    | Capturing(at: DateTime)         // the capture tag, from a clock reading
    | TimelapseStopped                // the switch cancelled a timelapse
    | ButtonCapture                   // a button press starts a single capture
    | CaptureDone                     // that capture is over
    | ButtonTimelapse                 // a button press starts a timelapse

  datatype Event =
    | Write(pin: Pin, level: Level)   // digitalWrite
    | Read(pin: Pin, level: Level)    // digitalRead, with the value it returned
    | DelayMs(ms: nat)                // delay
    | DelayUs(us: nat)                // delayMicroseconds
    | Info(note: Note)                // MSG_INFO, message only

  predicate IsRedWrite(e: Event) {
    e.Write? && e.pin == LedRed
  }

  /** An event that neither logs, reads a pin, nor touches the status LED. */
  predicate IsSilent(e: Event) {
    !e.Info? && !e.Read? && !IsRedWrite(e)
  }

  predicate Silent(t: seq<Event>) {
    forall i :: 0 <= i < |t| ==> IsSilent(t[i])
  }

  /** The log lines of a trace, in order. */
  function Messages(t: seq<Event>): seq<Note>
    decreases |t|
  {
    if t == [] then []
    else (if t[0].Info? then [t[0].note] else []) + Messages(t[1..])
  }

  /** The level of LED_RED after one event, given the level before it. */
  function NextRed(red: Level, e: Event): Level {
    if IsRedWrite(e) then e.level else red
  }

  /** The level of LED_RED after a trace, given the level before it. */
  function RedAfter(red: Level, t: seq<Event>): Level
    decreases |t|
  {
    if t == [] then red else RedAfter(NextRed(red, t[0]), t[1..])
  }

  /** Every read of or write to a pin in `watched` happens while LED_RED is HIGH. */
  predicate RedHighAt(red: Level, t: seq<Event>, watched: set<Pin>)
    decreases |t|
  {
    t == [] ||
    (((t[0].Write? || t[0].Read?) && t[0].pin in watched ==> red == High) &&
     RedHighAt(NextRed(red, t[0]), t[1..], watched))
  }

  lemma {:induction false} MessagesAppend(a: seq<Event>, b: seq<Event>)
    ensures Messages(a + b) == Messages(a) + Messages(b)
    decreases |a|
  {
    if a == [] {
      assert a + b == b;
    } else {
      assert (a + b)[0] == a[0] && (a + b)[1..] == a[1..] + b;
      MessagesAppend(a[1..], b);
    }
  }

  lemma {:induction false} RedAfterAppend(red: Level, a: seq<Event>, b: seq<Event>)
    ensures RedAfter(red, a + b) == RedAfter(RedAfter(red, a), b)
    decreases |a|
  {
    if a == [] {
      assert a + b == b;
    } else {
      assert (a + b)[0] == a[0] && (a + b)[1..] == a[1..] + b;
      RedAfterAppend(NextRed(red, a[0]), a[1..], b);
    }
  }

  lemma {:induction false} RedHighAtAppend(red: Level, a: seq<Event>, b: seq<Event>, watched: set<Pin>)
    ensures RedHighAt(red, a + b, watched) <==>
            RedHighAt(red, a, watched) && RedHighAt(RedAfter(red, a), b, watched)
    decreases |a|
  {
    if a == [] {
      assert a + b == b;
    } else {
      assert (a + b)[0] == a[0] && (a + b)[1..] == a[1..] + b;
      RedHighAtAppend(NextRed(red, a[0]), a[1..], b, watched);
    }
  }

  /** The three observations of a trace, split at any point. */
  lemma ObservedAppend(red: Level, a: seq<Event>, b: seq<Event>, watched: set<Pin>)
    ensures Messages(a + b) == Messages(a) + Messages(b)
    ensures RedAfter(red, a + b) == RedAfter(RedAfter(red, a), b)
    ensures RedHighAt(red, a + b, watched) <==>
            RedHighAt(red, a, watched) && RedHighAt(RedAfter(red, a), b, watched)
  {
    MessagesAppend(a, b);
    RedAfterAppend(red, a, b);
    RedHighAtAppend(red, a, b, watched);
  }

  /** The three observations of a single event. */
  lemma ObservedOne(red: Level, e: Event, watched: set<Pin>)
    ensures Messages([e]) == (if e.Info? then [e.note] else [])
    ensures RedAfter(red, [e]) == NextRed(red, e)
    ensures RedHighAt(red, [e], watched) <==>
            ((e.Write? || e.Read?) && e.pin in watched ==> red == High)
  {
    assert [e][1..] == [];
  }

  lemma SilentAppend(a: seq<Event>, b: seq<Event>)
    requires Silent(a) && Silent(b)
    ensures Silent(a + b)
  {
    forall i | 0 <= i < |a + b| ensures IsSilent((a + b)[i]) {
      if i >= |a| { assert (a + b)[i] == b[i - |a|]; }
    }
  }

  /** A silent stretch logs nothing, leaves LED_RED as it was, and touches only pins
      other than LED_RED, so it keeps `RedHighAt` for any watched pins if LED_RED is HIGH. */
  lemma {:induction false} SilentIsInvisible(red: Level, t: seq<Event>, watched: set<Pin>)
    requires Silent(t)
    ensures Messages(t) == []
    ensures RedAfter(red, t) == red
    ensures red == High ==> RedHighAt(red, t, watched)
    decreases |t|
  {
    if t != [] {
      assert IsSilent(t[0]);
      SilentIsInvisible(red, t[1..], watched);
    }
  }
}
