/** One call of `loop`: the DIP switch selects automatic or manual mode, manual mode
    captures on a rising edge of the button, automatic mode starts a timelapse on a
    pressed button. */
module Modes {
  import opened Io
  import opened Waveform
  import opened Timelapse

  /** What a call leaves behind: its run and the new value of `prevBtnState`. */
  datatype Outcome = Outcome(run: Run, prevBtnState: Level)

  /** The button reading differs from the previous one and is HIGH. */
  predicate RisingEdge(prev: Level, btn: Level) {
    btn != prev && btn == High
  }

  /** On two levels, "changed and HIGH" is exactly "was LOW, is HIGH". */
  lemma RisingEdgeIsLowToHigh(prev: Level, btn: Level)
    ensures RisingEdge(prev, btn) <==> prev == Low && btn == High
  {
  }

  /** A capture started from the button: announced, taken, reported, then a 1.5 s hold. */
  function ButtonCaptureTrace(now: DateTime): seq<Event> {
    [Info(ButtonCapture)] + CaptureTrace(now) + [Info(CaptureDone), DelayMs(1500)]
  }

  /** `manualMode()` with `prevBtnState == prev`, reading the button at position `p`. */
  function ManualRun(prev: Level, inputs: nat -> Level, p: nat,
                     clock: nat -> DateTime, c: nat): Outcome
  {
    var btn := inputs(p);
    var fire := RisingEdge(prev, btn);
    var events := [Write(LedRed, High), Read(ButtonPin, btn)]
                  + (if fire then ButtonCaptureTrace(clock(c)) else [])
                  + [DelayMs(10)];
    Outcome(Run(events, 1, if fire then 1 else 0), btn)
  }

  /** What automatic mode passes to `recordTimelapse`: 2 h recorded for a 60 s clip at 30 fps. */
  const ButtonTimeToRecord: uint32 := 7200
  const ButtonClipLength: uint32 := 60
  const ButtonFps: uint32 := 30

  /** `automaticMode()` without the light sensor and clock branch, reading the button at
      position `p`; a pressed button records the 2 h timelapse. */
  function AutomaticRun(inputs: nat -> Level, p: nat, clock: nat -> DateTime, c: nat): Run
  {
    var btn := inputs(p);
    if btn == High then
      var lapse := TimelapseRun(ButtonTimeToRecord, ButtonClipLength, ButtonFps, inputs, p + 1, clock, c);
      Run([Write(LedRed, Low), Read(ButtonPin, btn), Info(ButtonTimelapse)]
          + lapse.events + [DelayMs(500), DelayMs(10)],
          1 + lapse.readings, lapse.captures)
    else
      Run([Write(LedRed, Low), Read(ButtonPin, btn), DelayMs(10)], 1, 0)
  }

  /** `loop()`: read the switch, run the mode it selects, wait 200 ms. */
  function LoopRun(prev: Level, inputs: nat -> Level, p: nat,
                   clock: nat -> DateTime, c: nat): Outcome
  {
    var sw := inputs(p);
    var inner :=
      match ModeOf(sw)
      case Automatic => Outcome(AutomaticRun(inputs, p + 1, clock, c), prev)
      case Manual => ManualRun(prev, inputs, p + 1, clock, c);
    Outcome(Run([Read(DipSwitch, sw)] + inner.run.events + [DelayMs(200)],
                1 + inner.run.readings, inner.run.captures),
            inner.prevBtnState)
  }

  /** `n` runs of one pass in a row, each starting after the readings and clock readings
      of the previous one and from the latch it left. */
  function Passes(n: nat, pass: (Level, nat, nat) -> Outcome, prev: Level, p: nat, c: nat): Outcome
    decreases n
  {
    if n == 0 then Outcome(NoRun, prev)
    else
      var first := pass(prev, p, c);
      var rest := Passes(n - 1, pass, first.prevBtnState, p + first.run.readings, c + first.run.captures);
      Outcome(Run(first.run.events + rest.run.events,
                  first.run.readings + rest.run.readings,
                  first.run.captures + rest.run.captures),
              rest.prevBtnState)
  }

  /** `n` passes of `loop()`, as the board repeats it. */
  function LoopCalls(n: nat, prev: Level, inputs: nat -> Level, p: nat,
                     clock: nat -> DateTime, c: nat): Outcome
  {
    Passes(n, (latch: Level, q: nat, k: nat) => LoopRun(latch, inputs, q, clock, k), prev, p, c)
  }

  /** The rising edges in a sequence of button readings that follows `prev`. */
  function Rises(prev: Level, btns: seq<Level>): nat
    decreases |btns|
  {
    if btns == [] then 0
    else (if RisingEdge(prev, btns[0]) then 1 else 0) + Rises(btns[0], btns[1..])
  }

  /** The last of the readings, or `prev` if there are none. */
  function LastLevel(prev: Level, btns: seq<Level>): Level {
    if btns == [] then prev else btns[|btns| - 1]
  }

  /** One call in manual mode reads the button once; it captures exactly on a rising edge,
      logs the capture's three lines then, and always latches the reading. LED_RED is
      switched on first and stays on, so the button and LED_GREEN are only touched while
      it is HIGH. */
  lemma ManualObserved(red: Level, prev: Level, inputs: nat -> Level, p: nat,
                       clock: nat -> DateTime, c: nat)
    ensures var out := ManualRun(prev, inputs, p, clock, c);
      && out.prevBtnState == inputs(p)
      && out.run.readings == 1
      && (out.run.captures == 1 <==> prev == Low && inputs(p) == High)
      && out.run.captures <= 1
      && Messages(out.run.events) ==
         (if out.run.captures == 1 then [ButtonCapture, Capturing(clock(c)), CaptureDone] else [])
      && RedAfter(red, out.run.events) == High
      && RedHighAt(red, out.run.events, {LedGreen, ButtonPin})
  {
    var btn := inputs(p);
    var watched := {LedGreen, ButtonPin};
    var head := [Write(LedRed, High), Read(ButtonPin, btn)];
    var body := if RisingEdge(prev, btn) then ButtonCaptureTrace(clock(c)) else [];
    HeadObserved(red, High, btn, watched);
    if RisingEdge(prev, btn) {
      ButtonCaptureObserved(clock(c), watched);
    }
    ObservedAppend(red, head, body, watched);
    ObservedOne(High, DelayMs(10), watched);
    ObservedAppend(red, head + body, [DelayMs(10)], watched);
  }

  /** The opening of either mode: LED_RED set to `level`, then the button read. */
  lemma HeadObserved(red: Level, level: Level, btn: Level, watched: set<Pin>)
    requires LedRed !in watched
    ensures var head := [Write(LedRed, level), Read(ButtonPin, btn)];
      && Messages(head) == []
      && RedAfter(red, head) == level
      && (RedHighAt(red, head, watched) <==> (ButtonPin in watched ==> level == High))
  {
    var head := [Write(LedRed, level), Read(ButtonPin, btn)];
    assert head == [Write(LedRed, level)] + [Read(ButtonPin, btn)];
    ObservedOne(red, Write(LedRed, level), watched);
    ObservedOne(level, Read(ButtonPin, btn), watched);
    ObservedAppend(red, [Write(LedRed, level)], [Read(ButtonPin, btn)], watched);
  }

  lemma ButtonCaptureObserved(now: DateTime, watched: set<Pin>)
    ensures Messages(ButtonCaptureTrace(now)) == [ButtonCapture, Capturing(now), CaptureDone]
    ensures RedAfter(High, ButtonCaptureTrace(now)) == High
    ensures RedHighAt(High, ButtonCaptureTrace(now), watched)
  {
    var tail := [Info(CaptureDone), DelayMs(1500)];
    assert tail == [Info(CaptureDone)] + [DelayMs(1500)];
    ObservedOne(High, Info(ButtonCapture), watched);
    CaptureObserved(High, now, watched);
    ObservedOne(High, Info(CaptureDone), watched);
    ObservedOne(High, DelayMs(1500), watched);
    ObservedAppend(High, [Info(CaptureDone)], [DelayMs(1500)], watched);
    ObservedAppend(High, [Info(ButtonCapture)], CaptureTrace(now), watched);
    ObservedAppend(High, [Info(ButtonCapture)] + CaptureTrace(now), tail, watched);
  }

  /** One call in automatic mode switches LED_RED off and leaves it off. With the button
      released it logs nothing and captures nothing; with it pressed it announces the
      timelapse and then logs what the timelapse logs. LED_GREEN and the switch are only
      touched inside timelapse frames, while LED_RED is HIGH. */
  lemma AutomaticObserved(red: Level, inputs: nat -> Level, p: nat,
                          clock: nat -> DateTime, c: nat)
    ensures var run := AutomaticRun(inputs, p, clock, c);
            var lapse := TimelapseRun(ButtonTimeToRecord, ButtonClipLength, ButtonFps, inputs, p + 1, clock, c);
      && (inputs(p) == Low ==> run.captures == 0 && run.readings == 1 && Messages(run.events) == [])
      && (inputs(p) == High ==>
            run.captures == lapse.captures && run.readings == 1 + lapse.readings &&
            Messages(run.events) == [ButtonTimelapse] + Messages(lapse.events))
      && RedAfter(red, run.events) == Low
      && RedHighAt(red, run.events, {LedGreen, DipSwitch})
  {
    var btn := inputs(p);
    var watched := {LedGreen, DipSwitch};
    HeadObserved(red, Low, btn, watched);
    if btn == High {
      var lapse := TimelapseRun(ButtonTimeToRecord, ButtonClipLength, ButtonFps, inputs, p + 1, clock, c);
      TimelapseLedProtocol(Low, ButtonTimeToRecord, ButtonClipLength, ButtonFps, inputs, p + 1, clock, c);
      AnnouncedObserved(red, lapse.events, watched);
    } else {
      var head := [Write(LedRed, Low), Read(ButtonPin, btn)];
      ObservedOne(Low, DelayMs(10), watched);
      ObservedAppend(red, head, [DelayMs(10)], watched);
    }
  }

  /** A pressed button in automatic mode: LED_RED off, the announcement, the timelapse,
      and the two delays after it. */
  lemma AnnouncedObserved(red: Level, lapse: seq<Event>, watched: set<Pin>)
    requires LedRed !in watched && ButtonPin !in watched
    requires RedAfter(Low, lapse) == Low && RedHighAt(Low, lapse, watched)
    ensures var t := [Write(LedRed, Low), Read(ButtonPin, High), Info(ButtonTimelapse)]
                     + lapse + [DelayMs(500), DelayMs(10)];
      && Messages(t) == [ButtonTimelapse] + Messages(lapse)
      && RedAfter(red, t) == Low
      && RedHighAt(red, t, watched)
  {
    var head := [Write(LedRed, Low), Read(ButtonPin, High)];
    var delays := [DelayMs(500), DelayMs(10)];
    HeadObserved(red, Low, High, watched);
    assert delays == [DelayMs(500)] + [DelayMs(10)];
    ObservedOne(Low, DelayMs(500), watched);
    ObservedOne(Low, DelayMs(10), watched);
    ObservedAppend(Low, [DelayMs(500)], [DelayMs(10)], watched);
    ObservedOne(Low, Info(ButtonTimelapse), watched);
    ObservedAppend(red, head, [Info(ButtonTimelapse)], watched);
    assert head + [Info(ButtonTimelapse)] == [Write(LedRed, Low), Read(ButtonPin, High), Info(ButtonTimelapse)];
    ObservedAppend(red, head + [Info(ButtonTimelapse)], lapse, watched);
    ObservedAppend(red, head + [Info(ButtonTimelapse)] + lapse, delays, watched);
    assert [] + [ButtonTimelapse] == [ButtonTimelapse];
  }

  /** The button timelapse, left in automatic position for its whole 2 h: all 1800
      frames are captured. */
  lemma AutomaticFullTimelapse(inputs: nat -> Level, p: nat, clock: nat -> DateTime, c: nat)
    requires inputs(p) == High && AllLow(inputs, p + 1, 720_000)
    ensures AutomaticRun(inputs, p, clock, c).captures == 1800
    ensures AutomaticRun(inputs, p, clock, c).readings == 720_001
  {
    TwoHourTimelapse(inputs, p + 1, clock, c);
  }

  /** `loop()` dispatches on the switch: it is read first, LED_RED ends up showing the
      mode (HIGH for manual), the button latch changes only in manual mode, and a manual
      pass reads two pins and captures exactly on a rising edge. */
  lemma LoopDispatch(red: Level, prev: Level, inputs: nat -> Level, p: nat,
                     clock: nat -> DateTime, c: nat)
    ensures var out := LoopRun(prev, inputs, p, clock, c);
      && out.run.events[0] == Read(DipSwitch, inputs(p))
      && RedAfter(red, out.run.events) == inputs(p)
      && (inputs(p) == Low ==> out.prevBtnState == prev)
      && (inputs(p) == High ==>
            out.prevBtnState == inputs(p + 1) && out.run.readings == 2 &&
            out.run.captures == (if RisingEdge(prev, inputs(p + 1)) then 1 else 0))
  {
    var sw := inputs(p);
    var out := LoopRun(prev, inputs, p, clock, c);
    var inner := if sw == High then ManualRun(prev, inputs, p + 1, clock, c).run
                 else AutomaticRun(inputs, p + 1, clock, c);
    if sw == High {
      ManualObserved(red, prev, inputs, p + 1, clock, c);
    } else {
      AutomaticObserved(red, inputs, p + 1, clock, c);
    }
    ObservedOne(red, Read(DipSwitch, sw), {});
    ObservedOne(sw, DelayMs(200), {});
    RedAfterAppend(red, [Read(DipSwitch, sw)], inner.events);
    RedAfterAppend(red, [Read(DipSwitch, sw)] + inner.events, [DelayMs(200)]);
  }

  /** The switch reads manual at the start of each of `n` passes of two readings from `p`. */
  predicate ManualSwitch(inputs: nat -> Level, p: nat, n: nat)
    decreases n
  {
    n == 0 || (inputs(p) == High && ManualSwitch(inputs, p + 2, n - 1))
  }

  /** The button readings of `n` manual passes from `p`: every second reading, after the
      switch reading of each pass. */
  function ButtonLevels(inputs: nat -> Level, p: nat, n: nat): (btns: seq<Level>)
    ensures |btns| == n
    decreases n
  {
    if n == 0 then [] else [inputs(p + 1)] + ButtonLevels(inputs, p + 2, n - 1)
  }

  /** What one pass in manual mode does to the counts: it reads the switch and the button,
      captures on a rising edge and latches the button. */
  predicate ManualPass(out: Outcome, prev: Level, btn: Level) {
    && out.run.readings == 2
    && out.run.captures == (if RisingEdge(prev, btn) then 1 else 0)
    && out.prevBtnState == btn
  }

  /** Every pass that finds the switch in manual acts as a manual pass. */
  ghost predicate ManualWhenHigh(pass: (Level, nat, nat) -> Outcome, inputs: nat -> Level) {
    forall latch: Level, q: nat, k: nat ::
      inputs(q) == High ==> ManualPass(pass(latch, q, k), latch, inputs(q + 1))
  }

  /** Repeated manual passes read two pins each. */
  lemma {:induction false} PassesReadings(n: nat, pass: (Level, nat, nat) -> Outcome,
                                         prev: Level, inputs: nat -> Level, p: nat, c: nat)
    requires ManualSwitch(inputs, p, n) && ManualWhenHigh(pass, inputs)
    ensures Passes(n, pass, prev, p, c).run.readings == 2 * n
    decreases n
  {
    if n > 0 {
      var first := pass(prev, p, c);
      assert ManualPass(first, prev, inputs(p + 1));
      PassesReadings(n - 1, pass, inputs(p + 1), inputs, p + 2, c + first.run.captures);
    }
  }

  /** Repeated manual passes leave the latch at the last button reading. */
  lemma {:induction false} PassesLatch(n: nat, pass: (Level, nat, nat) -> Outcome,
                                      prev: Level, inputs: nat -> Level, p: nat, c: nat)
    requires ManualSwitch(inputs, p, n) && ManualWhenHigh(pass, inputs)
    ensures Passes(n, pass, prev, p, c).prevBtnState == LastLevel(prev, ButtonLevels(inputs, p, n))
    decreases n
  {
    if n > 0 {
      var first := pass(prev, p, c);
      assert ManualPass(first, prev, inputs(p + 1));
      PassesLatch(n - 1, pass, inputs(p + 1), inputs, p + 2, c + first.run.captures);
      LastLevelSplit(prev, inputs, p, n);
    }
  }

  /** Repeated manual passes capture once per rising edge of the button readings. */
  lemma {:induction false} PassesCaptures(n: nat, pass: (Level, nat, nat) -> Outcome,
                                         prev: Level, inputs: nat -> Level, p: nat, c: nat)
    requires ManualSwitch(inputs, p, n) && ManualWhenHigh(pass, inputs)
    ensures Passes(n, pass, prev, p, c).run.captures == Rises(prev, ButtonLevels(inputs, p, n))
    decreases n
  {
    if n > 0 {
      var first := pass(prev, p, c);
      assert ManualPass(first, prev, inputs(p + 1));
      var rest := Passes(n - 1, pass, inputs(p + 1), p + 2, c + first.run.captures);
      assert Passes(n, pass, prev, p, c).run.captures == first.run.captures + rest.run.captures;
      PassesCaptures(n - 1, pass, inputs(p + 1), inputs, p + 2, c + first.run.captures);
      RisesSplit(prev, inputs, p, n);
    }
  }

  /** While the switch stays in manual, passes of `loop()` capture once per rising edge of
      the button, read two pins each, and leave the latch at the last button reading. */
  lemma ManualSession(n: nat, prev: Level, inputs: nat -> Level, p: nat,
                      clock: nat -> DateTime, c: nat)
    requires ManualSwitch(inputs, p, n)
    ensures var out := LoopCalls(n, prev, inputs, p, clock, c);
            var btns := ButtonLevels(inputs, p, n);
      && out.run.captures == Rises(prev, btns)
      && out.run.readings == 2 * n
      && out.prevBtnState == LastLevel(prev, btns)
  {
    var pass := (latch: Level, q: nat, k: nat) => LoopRun(latch, inputs, q, clock, k);
    forall latch: Level, q: nat, k: nat | inputs(q) == High
      ensures ManualPass(pass(latch, q, k), latch, inputs(q + 1))
    {
      LoopDispatch(Low, latch, inputs, q, clock, k);
    }
    PassesReadings(n, pass, prev, inputs, p, c);
    PassesLatch(n, pass, prev, inputs, p, c);
    PassesCaptures(n, pass, prev, inputs, p, c);
  }

  /** The rising edges of a session's button readings, split after the first pass. */
  lemma RisesSplit(prev: Level, inputs: nat -> Level, p: nat, n: nat)
    requires n > 0
    ensures Rises(prev, ButtonLevels(inputs, p, n)) ==
            (if RisingEdge(prev, inputs(p + 1)) then 1 else 0)
            + Rises(inputs(p + 1), ButtonLevels(inputs, p + 2, n - 1))
  {
    var later := ButtonLevels(inputs, p + 2, n - 1);
    assert ([inputs(p + 1)] + later)[1..] == later;
  }

  /** The last level of a session's button readings, split after the first pass. */
  lemma LastLevelSplit(prev: Level, inputs: nat -> Level, p: nat, n: nat)
    requires n > 0
    ensures LastLevel(prev, ButtonLevels(inputs, p, n)) ==
            LastLevel(inputs(p + 1), ButtonLevels(inputs, p + 2, n - 1))
  {
  }

  /** A button held down through `n` manual passes captures once if it was up before,
      and never if it was already down. */
  lemma {:induction false} HeldButton(prev: Level, n: nat)
    ensures Rises(prev, seq(n, _ => High)) == if n > 0 && prev == Low then 1 else 0
    decreases n
  {
    if n > 0 {
      assert seq(n, _ => High)[1..] == seq(n - 1, _ => High);
      HeldButton(High, n - 1);
    }
  }

  /** Two rising edges need a LOW reading between them: at most one capture per two
      readings, plus one if the latch starts LOW. */
  lemma {:induction false} RisesBound(prev: Level, btns: seq<Level>)
    ensures 2 * Rises(prev, btns) <= |btns| + (if prev == Low then 1 else 0)
    decreases |btns|
  {
    if btns != [] {
      RisesBound(btns[0], btns[1..]);
    }
  }
}
