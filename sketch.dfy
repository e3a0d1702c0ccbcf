/** The sketch as a program: a controller whose methods are the sketch's routines. Each
    hardware call appends to the controller's trace, each `digitalRead` consumes the next
    value of the input stream and each `rtc.now()` the next value of the clock stream.
    Every routine is proved to leave the state its functional description in `Modes` and
    `Timelapse` gives. */
module Sketch {
  import opened Io
  import opened Waveform
  import opened Timelapse
  import opened Modes

  class Controller {
    /** Everything the sketch has done to the hardware so far. */
    var trace: seq<Event>
    /** How many pin readings have been taken; the next one is `inputs(inputPos)`. */
    var inputPos: nat
    /** How many clock readings have been taken; the next one is `clock(clockPos)`. */
    var clockPos: nat
    /** The global `prevBtnState` of manual mode. */
    var prevBtnState: Level

    /** The levels the DIP switch and the button show, in the order they are read. */
    const inputs: nat -> Level
    /** What the real-time clock shows, in the order it is read. */
    const clock: nat -> DateTime

    /** The state right after `setup()`: nothing recorded yet and the button latch LOW. */
    constructor (inputs: nat -> Level, clock: nat -> DateTime)
      ensures this.inputs == inputs && this.clock == clock
      ensures trace == [] && inputPos == 0 && clockPos == 0 && prevBtnState == Low
    {
      this.inputs := inputs;
      this.clock := clock;
      trace := [];
      inputPos := 0;
      clockPos := 0;
      prevBtnState := Low;
    }

    method DigitalWrite(pin: Pin, level: Level)
      modifies this`trace
      ensures trace == old(trace) + [Write(pin, level)]
    {
      trace := trace + [Write(pin, level)];
    }

    method DigitalRead(pin: Pin) returns (level: Level)
      modifies this`trace, this`inputPos
      ensures level == inputs(old(inputPos))
      ensures inputPos == old(inputPos) + 1
      ensures trace == old(trace) + [Read(pin, level)]
    {
      level := inputs(inputPos);
      inputPos := inputPos + 1;
      trace := trace + [Read(pin, level)];
    }

    method Delay(ms: nat)
      modifies this`trace
      ensures trace == old(trace) + [DelayMs(ms)]
    {
      trace := trace + [DelayMs(ms)];
    }

    method DelayMicroseconds(us: nat)
      modifies this`trace
      ensures trace == old(trace) + [DelayUs(us)]
    {
      trace := trace + [DelayUs(us)];
    }

    method LogInfo(note: Note)
      modifies this`trace
      ensures trace == old(trace) + [Info(note)]
    {
      trace := trace + [Info(note)];
    }

    /** `rtc.now()`. */
    method Now() returns (now: DateTime)
      modifies this`clockPos
      ensures now == clock(old(clockPos))
      ensures clockPos == old(clockPos) + 1
    {
      now := clock(clockPos);
      clockPos := clockPos + 1;
    }

    /** The `toggleLed` lambda: one 7 µs HIGH / 7 µs LOW pulse on LED_GREEN. */
    method ToggleLed()
      modifies this`trace
      ensures trace == old(trace) + Toggle
    {
      DigitalWrite(LedGreen, High);
      DelayMicroseconds(7);
      DigitalWrite(LedGreen, Low);
      DelayMicroseconds(7);
    }

    /** One of the counting loops of `captureImage`, `count` toggles with a `uint8_t` counter. */
    method ToggleLoop(count: uint8)
      modifies this`trace
      ensures trace == old(trace) + Burst(count as nat)
    {
      var i: uint8 := 0;
      while i < count
        invariant i <= count
        invariant trace == old(trace) + Burst(i as nat)
      {
        ToggleLed();
        BurstSnoc(i as nat);
        i := i + 1;
      }
    }

    /** `captureImage()`: one clock reading for the tag, then the infrared trigger. */
    method CaptureImage()
      modifies this`trace, this`clockPos
      ensures clockPos == old(clockPos) + 1
      ensures trace == old(trace) + CaptureTrace(clock(old(clockPos)))
    {
      var now := Now();
      LogInfo(Capturing(now));
      var t0 := trace;
      ToggleLoop(76);
      Delay(27);
      DelayMicroseconds(810);
      var t1 := trace;
      ToggleLoop(16);
      DelayMicroseconds(1540);
      var t2 := trace;
      ToggleLoop(16);
      DelayMicroseconds(3545);
      var t3 := trace;
      ToggleLoop(16);
      TriggerAppended(old(trace) + [Info(Capturing(now))], t0, t1, t2, t3, trace);
    }

    /** The waiting loop of one timelapse frame: `ticks` polls of the switch 10 ms apart,
        cut short by a manual reading, which is logged. */
    method WaitFrame(ticks: nat) returns (cancelled: bool)
      modifies this`trace, this`inputPos
      ensures var m := FirstManual(inputs, old(inputPos), ticks);
              var wait := if m < ticks then Cancelled(m) else Full;
        && cancelled == (m < ticks)
        && trace == old(trace) + WaitTrace(wait, ticks)
        && inputPos == old(inputPos) + (if m < ticks then m + 1 else ticks)
    {
      var s: nat := 0;
      while s < ticks
        invariant s <= ticks
        invariant inputPos == old(inputPos) + s
        invariant AllLow(inputs, old(inputPos), s)
        invariant trace == old(trace) + Ticks(s)
      {
        var sw := DigitalRead(DipSwitch);
        if ModeOf(sw) == Manual {
          LogInfo(TimelapseStopped);
          FirstManualUnique(inputs, old(inputPos), ticks, s);
          assert trace == old(trace) + (Ticks(s) + Cancel);
          return true;
        }
        Delay(10);
        assert trace == old(trace) + Ticks(s + 1);
        s := s + 1;
      }
      FirstManualUnique(inputs, old(inputPos), ticks, ticks);
      return false;
    }

    /** `recordTimelapse(timeToRecord, clipLength, fps)`. */
    method RecordTimelapse(timeToRecord: uint32, clipLength: uint32, fps: uint32)
      modifies this`trace, this`inputPos, this`clockPos
      ensures var run := TimelapseRun(timeToRecord, clipLength, fps, inputs, old(inputPos),
                                      clock, old(clockPos));
        && trace == old(trace) + run.events
        && inputPos == old(inputPos) + run.readings
        && clockPos == old(clockPos) + run.captures
    {
      var frames := FrameCount(clipLength, fps);
      ghost var n := frames as nat;
      ghost var w := if frames == 0 then 0 else WaitTicks(timeToRecord, frames);
      ghost var whole := Schedule(0, n, w, inputs, inputPos);
      ghost var goal := old(trace) + Render(0, whole, w, clock, clockPos);
      ghost var readings := inputPos + Readings(whole, w);
      ghost var captures := clockPos + |whole|;
      var recordTimeLapse := true;
      var i: uint32 := 0;
      ghost var j: nat := 0;
      while i < frames && recordTimeLapse
        invariant j == i as nat <= n
        invariant recordTimeLapse ==>
          var rest := Schedule(j, n, w, inputs, inputPos);
          && trace + Render(j, rest, w, clock, clockPos) == goal
          && inputPos + Readings(rest, w) == readings
          && clockPos + |rest| == captures
        invariant !recordTimeLapse ==>
          trace == goal && inputPos == readings && clockPos == captures
      {
        ghost var t0, p0, c0 := trace, inputPos, clockPos;
        assert w == WaitTicks(timeToRecord, frames);
        var cancelled := RecordFrame(i, WaitTicks(timeToRecord, frames));
        FrameRecorded(j, n, w, inputs, clock, goal, t0, p0, c0, cancelled, trace, inputPos, clockPos);
        FrameCounted(j, n, w, inputs, readings, captures, p0, c0, cancelled, inputPos, clockPos);
        recordTimeLapse := !cancelled;
        i := i + 1;
        j := j + 1;
      }
      assert trace + [] == trace;
    }

    /** One pass of the frame loop of `recordTimelapse`: the frame number logged, LED_RED
        on, a capture, the wait for `ticks` polls or a manual reading, LED_RED off. */
    method RecordFrame(i: uint32, ticks: nat) returns (cancelled: bool)
      modifies this`trace, this`inputPos, this`clockPos
      ensures var m := FirstManual(inputs, old(inputPos), ticks);
              var wait := if m < ticks then Cancelled(m) else Full;
        && cancelled == (m < ticks)
        && trace == old(trace) + FrameTrace(i, clock(old(clockPos)), WaitTrace(wait, ticks))
        && inputPos == old(inputPos) + (if m < ticks then m + 1 else ticks)
        && clockPos == old(clockPos) + 1
    {
      LogInfo(FrameNumber(i));
      DigitalWrite(LedRed, High);
      ghost var ta := trace;
      CaptureImage();
      ghost var tb := trace;
      cancelled := WaitFrame(ticks);
      ghost var tc := trace;
      DigitalWrite(LedRed, Low);
      ghost var m := FirstManual(inputs, old(inputPos), ticks);
      ghost var wait := if m < ticks then Cancelled(m) else Full;
      FrameAppended(old(trace), [Info(FrameNumber(i)), Write(LedRed, High)],
                    CaptureTrace(clock(old(clockPos))), WaitTrace(wait, ticks),
                    [Write(LedRed, Low)], ta, tb, tc, trace);
    }

    /** `manualMode()`. */
    method ManualMode()
      modifies this`trace, this`inputPos, this`clockPos, this`prevBtnState
      ensures var out := ManualRun(old(prevBtnState), inputs, old(inputPos), clock, old(clockPos));
        && trace == old(trace) + out.run.events
        && inputPos == old(inputPos) + out.run.readings
        && clockPos == old(clockPos) + out.run.captures
        && prevBtnState == out.prevBtnState
    {
      DigitalWrite(LedRed, High);
      var btnState := DigitalRead(ButtonPin);
      ghost var head := [Write(LedRed, High), Read(ButtonPin, btnState)];
      Pair(old(trace), head[0], head[1]);
      ghost var t1 := trace;
      ghost var body: seq<Event> := [];
      if btnState != prevBtnState {
        if btnState == High {
          ghost var now := clock(clockPos);
          LogInfo(ButtonCapture);
          ghost var t2 := trace;
          CaptureImage();
          ghost var t3 := trace;
          LogInfo(CaptureDone);
          Delay(1500);
          Pair(t3, Info(CaptureDone), DelayMs(1500));
          Framed(t1, [Info(ButtonCapture)], CaptureTrace(now), [Info(CaptureDone), DelayMs(1500)], t2, trace);
          body := ButtonCaptureTrace(now);
        }
      }
      assert trace == t1 + body;
      prevBtnState := btnState;
      Delay(10);
      Framed(old(trace), head, body, [DelayMs(10)], t1, trace);
    }

    /** `automaticMode()` without the light sensor and clock branch. */
    method AutomaticMode()
      modifies this`trace, this`inputPos, this`clockPos
      ensures var run := AutomaticRun(inputs, old(inputPos), clock, old(clockPos));
        && trace == old(trace) + run.events
        && inputPos == old(inputPos) + run.readings
        && clockPos == old(clockPos) + run.captures
    {
      DigitalWrite(LedRed, Low);
      var btnState := DigitalRead(ButtonPin);
      ghost var p1, c1 := inputPos, clockPos;
      assert p1 == old(inputPos) + 1 && c1 == old(clockPos);
      if btnState == High {
        LogInfo(ButtonTimelapse);
        Triple(old(trace), Write(LedRed, Low), Read(ButtonPin, btnState), Info(ButtonTimelapse));
        ghost var t1 := trace;
        ghost var lapse := TimelapseRun(ButtonTimeToRecord, ButtonClipLength, ButtonFps, inputs, p1, clock, c1);
        RecordTimelapse(ButtonTimeToRecord, ButtonClipLength, ButtonFps);
        ghost var t2 := trace;
        Delay(500);
        Delay(10);
        Pair(t2, DelayMs(500), DelayMs(10));
        Framed(old(trace), [Write(LedRed, Low), Read(ButtonPin, btnState), Info(ButtonTimelapse)],
               lapse.events, [DelayMs(500), DelayMs(10)], t1, trace);
        AutomaticPressed(inputs, old(inputPos), clock, old(clockPos), lapse);
      } else {
        Delay(10);
        Triple(old(trace), Write(LedRed, Low), Read(ButtonPin, btnState), DelayMs(10));
        assert AutomaticRun(inputs, old(inputPos), clock, old(clockPos)) ==
          Run([Write(LedRed, Low), Read(ButtonPin, btnState), DelayMs(10)], 1, 0);
      }
    }

    /** `loop()`. */
    method Loop()
      modifies this`trace, this`inputPos, this`clockPos, this`prevBtnState
      ensures var out := LoopRun(old(prevBtnState), inputs, old(inputPos), clock, old(clockPos));
        && trace == old(trace) + out.run.events
        && inputPos == old(inputPos) + out.run.readings
        && clockPos == old(clockPos) + out.run.captures
        && prevBtnState == out.prevBtnState
    {
      var switchState := DigitalRead(DipSwitch);
      ghost var t1 := trace;
      ghost var inner: seq<Event>;
      var recordingMode := ModeOf(switchState);
      match recordingMode {
        case Automatic =>
          inner := AutomaticRun(inputs, inputPos, clock, clockPos).events;
          AutomaticMode();
        case Manual =>
          inner := ManualRun(prevBtnState, inputs, inputPos, clock, clockPos).run.events;
          ManualMode();
      }
      Delay(200);
      Framed(old(trace), [Read(DipSwitch, switchState)], inner, [DelayMs(200)], t1, trace);
    }
  }

  /** `AutomaticRun` with the button pressed, in terms of the timelapse it runs. */
  lemma AutomaticPressed(inputs: nat -> Level, p: nat, clock: nat -> DateTime, c: nat, lapse: Run)
    requires inputs(p) == High
    requires lapse == TimelapseRun(ButtonTimeToRecord, ButtonClipLength, ButtonFps, inputs, p + 1, clock, c)
    ensures AutomaticRun(inputs, p, clock, c) ==
      Run([Write(LedRed, Low), Read(ButtonPin, High), Info(ButtonTimelapse)]
          + lapse.events + [DelayMs(500), DelayMs(10)], 1 + lapse.readings, lapse.captures)
  {
  }

  /** `head`, `body` and `tail` appended one after the other to `t0` make `t`. */
  lemma Framed(t0: seq<Event>, head: seq<Event>, body: seq<Event>, tail: seq<Event>,
               t1: seq<Event>, t: seq<Event>)
    requires t1 == t0 + head && t == t1 + body + tail
    ensures t == t0 + (head + body + tail)
  {
  }

  lemma Pair(t0: seq<Event>, x: Event, y: Event)
    ensures t0 + [x] + [y] == t0 + [x, y]
  {
  }

  lemma Triple(t0: seq<Event>, x: Event, y: Event, z: Event)
    ensures t0 + [x] + [y] + [z] == t0 + [x, y, z]
  {
  }

  /** The trace of `captureImage` put together from the stretches its steps append. */
  lemma TriggerAppended(start: seq<Event>, t0: seq<Event>, t1: seq<Event>, t2: seq<Event>,
                        t3: seq<Event>, t4: seq<Event>)
    requires t0 == start
    requires t1 == t0 + Burst(76) + [DelayMs(27)] + [DelayUs(810)]
    requires t2 == t1 + Burst(16) + [DelayUs(1540)]
    requires t3 == t2 + Burst(16) + [DelayUs(3545)]
    requires t4 == t3 + Burst(16)
    ensures t4 == start + TriggerWaveform()
  {
  }

  /** The trace of one timelapse frame put together from the stretches its steps append. */
  lemma FrameAppended(t0: seq<Event>, head: seq<Event>, capture: seq<Event>, wait: seq<Event>,
                      tail: seq<Event>, ta: seq<Event>, tb: seq<Event>, tc: seq<Event>, t: seq<Event>)
    requires |head| == 2 && ta == t0 + [head[0]] + [head[1]]
    requires tb == ta + capture && tc == tb + wait && t == tc + tail
    ensures t == t0 + (head + capture + wait + tail)
  {
  }

  /** A frame appended in front of what remains keeps the total. */
  lemma Advance(t0: seq<Event>, frame: seq<Event>, after: seq<Event>, goal: seq<Event>,
                t: seq<Event>)
    requires t0 + (frame + after) == goal && t == t0 + frame
    ensures t + after == goal
  {
  }

  /** One frame recorded in the loop of `recordTimelapse` keeps the loop's account of the
      trace: what is left of the schedule still renders to the rest of it, or, if the
      frame was cancelled, the trace is complete. */
  lemma FrameRecorded(j: nat, n: nat, w: nat, inputs: nat -> Level, clock: nat -> DateTime,
                      goal: seq<Event>, t0: seq<Event>, p0: nat, c0: nat,
                      cancelled: bool, t: seq<Event>, p: nat, c: nat)
    requires j < n <= 0x1_0000_0000
    requires t0 + Render(j, Schedule(j, n, w, inputs, p0), w, clock, c0) == goal
    requires var m := FirstManual(inputs, p0, w);
             var wait := if m < w then Cancelled(m) else Full;
      && cancelled == (m < w)
      && t == t0 + FrameTrace(j as uint32, clock(c0), WaitTrace(wait, w))
      && p == p0 + (if m < w then m + 1 else w)
      && c == c0 + 1
    ensures !cancelled ==> t + Render(j + 1, Schedule(j + 1, n, w, inputs, p), w, clock, c) == goal
    ensures cancelled ==> t == goal
  {
    var m := FirstManual(inputs, p0, w);
    var wait := if m < w then Cancelled(m) else Full;
    var rest := if m < w then [] else Schedule(j + 1, n, w, inputs, p0 + w);
    ScheduleStep(j, n, w, inputs, p0);
    RenderCons(j, wait, rest, w, clock, c0);
    var after := Render(j + 1, rest, w, clock, c0 + 1);
    Advance(t0, FrameTrace(j as uint32, clock(c0), WaitTrace(wait, w)), after, goal, t);
    if cancelled {
      assert after == [] && t + [] == t;
    }
  }

  /** The same for the loop's account of the readings and the captures. */
  lemma FrameCounted(j: nat, n: nat, w: nat, inputs: nat -> Level, readings: nat, captures: nat,
                     p0: nat, c0: nat, cancelled: bool, p: nat, c: nat)
    requires j < n
    requires var rest := Schedule(j, n, w, inputs, p0);
      p0 + Readings(rest, w) == readings && c0 + |rest| == captures
    requires var m := FirstManual(inputs, p0, w);
      && cancelled == (m < w)
      && p == p0 + (if m < w then m + 1 else w)
      && c == c0 + 1
    ensures !cancelled ==>
      var rest := Schedule(j + 1, n, w, inputs, p);
      p + Readings(rest, w) == readings && c + |rest| == captures
    ensures cancelled ==> p == readings && c == captures
  {
    ScheduleStep(j, n, w, inputs, p0);
    if cancelled {
      assert Readings([], w) == 0;
    }
  }
}
