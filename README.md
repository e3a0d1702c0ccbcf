# Camera trigger sketch, modelled in Dafny

The sketch drives a camera from an Arduino board. In manual mode a press of a
button takes one image. In automatic mode a press starts a timelapse. A DIP
switch selects the mode, and flipping it back to manual cancels a running
timelapse. Each image is triggered by an infrared burst pattern on `LED_GREEN`,
and each capture is logged with a tag made from the real-time clock.

The model treats the hardware as data:

- every `digitalWrite`, `delay`, `delayMicroseconds` and info log line is an
  `Event` appended to a trace;
- every `digitalRead` of the switch or the button takes the next level from one
  input stream (`nat -> Level`);
- every `rtc.now()` takes the next reading from a clock stream
  (`nat -> DateTime`).

The model has six modules:

- `Io`: pins, levels, events, and three observations of a trace. These are the
  log lines, the level left on `LED_RED`, and whether pins were touched only
  while `LED_RED` was HIGH.
- `Format`: the `%0Nd` formatting and its decimal parser, the capture tag and the
  `Image number %05i` label.
- `Waveform`: the infrared trigger, plus a decoder that reads a trace back as
  bursts and pauses.
- `Timelapse`: `recordTimelapse` as functions of the inputs. A *schedule* says
  how each frame's wait ended and depends only on the switch. A *render* turns a
  schedule into events.
- `Modes`: `manualMode`, `automaticMode` (the button branch) and `loop` as
  functions of the inputs.
- `Sketch`: the program itself. It is a `Controller` class whose fields are the
  trace, the two stream positions and `prevBtnState`. Its methods are the
  sketch's routines with their loops. Each method is proved to leave exactly the
  state that the functions of `Waveform`, `Timelapse` and `Modes` describe.

## Model

| member | source | states |
|---|---|---|
| Io.ModeOf | src/main.cpp:86-87 | The switch reading selects manual mode exactly when it is HIGH (1), and automatic mode when it is LOW (0). |
| Format.ZeroPadWidth | src/main.cpp:198 | For `n < 10^width`, `%0<width>d` gives exactly `width` characters, and they parse back to `n`. |
| Format.CaptureTagLayout | src/main.cpp:197-199 | For calendar-sized readings the tag is 29 characters, `capturing IMG_YYYYMMDD_HHMMSS`. Each field parses back to its clock value, and the hour field is the clock hour plus one. |
| Format.CaptureTagNeverTruncated | src/main.cpp:197-199 | The 45-byte buffer never cuts the tag. Even at the widest field values (5-digit year, 3-digit byte fields) it has at most 35 characters. |
| Format.CaptureTagExample | src/main.cpp:197-199 | 20:58:00 on 2 July 2020, the sunset noted at src/main.cpp:61, is logged as `capturing IMG_20200702_215800`. |
| Format.CaptureTagLastHour | src/main.cpp:197-199 | Hour 23 is logged as `24`, not wrapped to `00`. |
| Format.FrameLabelLayout | src/main.cpp:170-172 | Below 10^7 the label is `Image number ` followed by the `%05i` field of the frame index: digits that parse back to the index, exactly five below 10^5, and from 10^5 on exactly the index's own digits with no leading zero. |
| Format.FrameLabelInjective | src/main.cpp:170-172 | Distinct frame indices below 10^7 get distinct labels. |
| Format.FrameLabelExample | src/main.cpp:170-172 | Frames 0 and 1799 are labelled `Image number 00000` and `Image number 01799`. |
| Format.FrameNumberText | src/main.cpp:170-172 | The log line of a frame below 10^7 is its label, with the same `%05i` layout: five zero-padded digits below 10^5, the unpadded digits above. |
| Waveform.BurstSnoc | src/main.cpp:209-212 | One more pass of a toggle loop appends exactly one HIGH/7 µs/LOW/7 µs toggle. |
| Waveform.TriggerShape | src/main.cpp:209-225 | The trigger decodes as 76, 16, 16 and 16 pulse pairs. The pauses between them are 27810 µs, 1540 µs and 3545 µs, and nothing follows the last burst. |
| Waveform.TriggerDuration | src/main.cpp:202-225 | The trigger's delays add up to 124 × 14 + 27810 + 1540 + 3545 = 34631 µs. |
| Waveform.TriggerSilent | src/main.cpp:202-225 | The trigger logs nothing, reads no pin and never writes `LED_RED`. |
| Waveform.CaptureObserved | src/main.cpp:195-226 | A capture logs exactly its tag and leaves `LED_RED` as it was. If `LED_RED` is HIGH when it starts, every pin it touches is touched while `LED_RED` is HIGH. |
| Timelapse.FrameCount | src/main.cpp:169 | The frame count is `clipLength * fps` whenever that product fits in 32 bits. |
| Timelapse.WrappedFrameCount | src/main.cpp:169 | The product is computed in 32 bits: 65536 × 65536 wraps to 0, and then nothing runs. |
| Timelapse.WaitTicks | src/main.cpp:175 | The wait is a multiple of 100 ticks, the whole seconds per frame: `ticks * F <= 100 * T < ticks * F + 100 * F`. |
| Timelapse.FirstManualFinds | src/main.cpp:175-186 | Every switch reading before the one where the wait stops is automatic. The one it stops at, if inside the window, is manual. |
| Timelapse.FirstManualUnique | src/main.cpp:175-186 | Conversely, any count with those two properties is where the wait stops. |
| Timelapse.ScheduleComplete | src/main.cpp:169-187 | If every reading is automatic, every frame's wait runs to its end. |
| Timelapse.ScheduleCancelled | src/main.cpp:169-187 | If the first manual reading falls in frame `q`, the frames before it complete, `q` is cancelled, and no frame follows. |
| Timelapse.FrameLogAt | src/main.cpp:169-174 | The log of uninterrupted frames is in frame order. Entry `2x` numbers frame `j + x`, and entry `2x + 1` is its capture tag from clock reading `c + x`. |
| Timelapse.RecordingComplete | src/main.cpp:166-189 | With no manual reading, all frames are captured and all `frames * w` polls are made. The log is the frame numbers 0.. with their tags. `LED_RED` is HIGH whenever `LED_GREEN` or the switch is touched, and LOW at the end. |
| Timelapse.RecordingCancelled | src/main.cpp:166-189 | If the first manual reading is reading `m` of the window, then `m / w + 1` frames are captured and `m + 1` readings are taken. The stop message is logged once, as the last line, and `LED_RED` ends LOW. |
| Timelapse.ShortRecordingNeverPolls | src/main.cpp:175 | When `T < F` the wait is 0 ticks. No switch reading is taken, and every frame is captured. |
| Timelapse.TwoHourTimelapse | src/main.cpp:150 | `recordTimelapse(7200, 60, 30)`, a 60 s clip at 30 fps, means 1800 frames with 400 polls (4 s) each. Left in automatic it captures 1800 images and takes 720000 readings. |
| Timelapse.TimelapseLedProtocol | src/main.cpp:173-187 | Over any call, `LED_GREEN` and the switch are touched only while `LED_RED` is HIGH. `LED_RED` is LOW at the end if any frame ran, and untouched if none did. |
| Timelapse.RenderLedProtocol | src/main.cpp:173-187 | The same bracket holds for the frames of any schedule. |
| Modes.RisingEdgeIsLowToHigh | src/main.cpp:112-113 | On two levels, "differs from the latch and is HIGH" is exactly "was LOW, is HIGH". |
| Modes.ManualObserved | src/main.cpp:106-122 | One manual call reads the button once and captures exactly on a rising edge. It then logs the three capture lines, always latches the reading, and leaves `LED_RED` HIGH. |
| Modes.ManualSession | src/main.cpp:85-122 | While the switch reads manual at the start of each pass, `n` passes of `loop()` read two pins each. They capture once per rising edge of the button readings, which are every second reading, and leave the latch at the last of them. |
| Modes.HeldButton | src/main.cpp:106-122 | A button held down captures once if it was up before, and never if it was already down. |
| Modes.RisesBound | src/main.cpp:106-122 | At most one capture per two readings, plus one if the latch starts LOW. |
| Modes.AutomaticObserved | src/main.cpp:146-154 | Automatic mode switches `LED_RED` off. A released button logs and captures nothing. A pressed button announces the timelapse and then logs exactly what it logs. |
| Modes.AutomaticFullTimelapse | src/main.cpp:147-151 | A press with the switch left in automatic takes all 1800 frames, with 720001 readings including the button. |
| Modes.LoopDispatch | src/main.cpp:85-99 | The switch is read first, and `LED_RED` ends showing the mode. The button latch changes only in manual mode, where a pass reads two pins and captures exactly on a rising edge. |
| Sketch.Controller.constructor | src/main.cpp:106 | The sketch starts with nothing recorded and the button latch LOW. |
| Sketch.Controller.ToggleLed | src/main.cpp:202-207 | The lambda appends one toggle to the trace. |
| Sketch.Controller.ToggleLoop | src/main.cpp:209-212 | A `uint8_t` counting loop appends `Burst(count)`. |
| Sketch.Controller.CaptureImage | src/main.cpp:195-226 | Takes one clock reading and appends exactly the tag line and the trigger waveform. |
| Sketch.Controller.WaitFrame | src/main.cpp:175-186 | The poll loop stops at the first manual reading (`FirstManual`) and then logs the stop. It appends the polls that were made and consumes exactly the readings taken. |
| Sketch.Controller.RecordFrame | src/main.cpp:170-187 | One pass of the frame loop appends exactly `FrameTrace` for that frame's wait, and takes one clock reading. |
| Sketch.Controller.RecordTimelapse | src/main.cpp:166-189 | The trace, readings and clock readings afterwards are exactly those of `TimelapseRun`, whose properties are the Timelapse lemmas above. |
| Sketch.Controller.ManualMode | src/main.cpp:106-122 | The new trace, stream positions and `prevBtnState` are those of `ManualRun`. |
| Sketch.Controller.AutomaticMode | src/main.cpp:146-154 | The new trace and stream positions are those of `AutomaticRun`. |
| Sketch.Controller.Loop | src/main.cpp:85-99 | The new state is that of `LoopRun`. |

## Left out

- `setup` (src/main.cpp:64-83): pin modes, `Wire.begin`, `Serial.begin` and the boot delay are hardware initialisation. The controller starts in the state they leave.
- Serial plumbing of the log macros (src/main.cpp:8-22): the `[INFO]` prefix and the file and line suffix are not modelled. A log line is recorded as a `Note`, and `Format.Text` gives its message text.
- The real-time clock is a foreign library. Its readings come from the clock stream, one per capture.
- Elapsed time: delays are events with their durations, and no claim is made about wall-clock accuracy or the time spent in calls.
- The light sensor and clock branch of `automaticMode` (src/main.cpp:130-145): it is compiled out and refers to a constant that is commented out.
- The `default` branch of `loop` (src/main.cpp:95-96): `digitalRead` yields only LOW or HIGH, so it cannot be reached.
- The board's endless repetition of `loop()` has no method of its own. `Modes.LoopCalls` describes `n` passes as a function, and `Modes.ManualSession` covers passes that stay in manual mode.
- Sketch.Controller.RecordTimelapse: the `100.0f` float bound is modelled as the exact integer `(T / F) * 100`. Single precision is exact for it only below 2^24, and float rounding above that is not modelled.
- Sketch.Controller.RecordTimelapse: the `uint32_t` poll counter is modelled as unbounded, and its conversion to float in `s < (T / F) * 100.0f` (src/main.cpp:175) is not modelled. When the bound rounds to a float above 2^32 (2^32 + 512 or more), every counter value compares below it, so the counter wraps and the source's wait ends only when the switch reads manual. When the bound rounds to exactly 2^32 (T / F from 42949670 to 42949674), every counter value from 2^32 - 128 on also rounds to 2^32, so the source's wait ends after 2^32 - 128 polls in automatic mode. The model instead ends the wait after exactly `(T / F) * 100` ticks.
- Format.FrameLabel: `%i` is taken as a 32-bit `int` reading the `uint32_t` frame index. The pin comments (src/main.cpp:24-46) describe an ATmega328-class board, where `int` is 16 bits. There `%05i` would print only the low 16 bits as a signed number, so from frame 32768 on the label would differ from `Format.FrameLabelLayout`, which covers indices below 10^7.
- Format.FrameLabelLayout: the label is proved intact only below 10^7. `snprintf` truncation of longer labels is modelled by `Truncate`, but nothing is proved about it.
- Behaviours of the code the model follows:
  - With zero frames, `recordTimelapse` returns without an error, a capture or a write, and never divides.
  - `LED_RED` stays HIGH through the whole wait and goes LOW only after it.
  - The wait is whole seconds, because the integer division comes before the scaling.
  - A zero-second wait takes no switch reading at all.
  - The trigger's delays add up to 34631 µs.
  - The logged tag starts with `capturing `.
