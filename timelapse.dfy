/** What `recordTimelapse` does, as a function of the DIP switch readings and the clock
    readings it consumes. It is described in two layers: the schedule (how the wait after
    each frame ended, which only depends on the switch readings) and the trace that a
    schedule renders to (which also depends on the clock). */
module Timelapse {
  import opened Io
  import opened Waveform

  /** The outcome of a routine: what it emitted, how many pin readings it consumed and
      how many clock readings (one per capture). */
  datatype Run = Run(events: seq<Event>, readings: nat, captures: nat)

  const NoRun := Run([], 0, 0)

  /** An unsigned value reduced to 32 bits. */
  function Wrap32(x: nat): (r: uint32)
    ensures x < 0x1_0000_0000 ==> r as nat == x
    ensures r as nat == x % 0x1_0000_0000
  {
    (x % 0x1_0000_0000) as uint32
  }

  /** The number of frames, `f_clipLength * f_fps` in 32-bit unsigned arithmetic. */
  function FrameCount(clipLength: uint32, fps: uint32): (frames: uint32)
    ensures clipLength as nat * fps as nat < 0x1_0000_0000 ==>
              frames as nat == clipLength as nat * fps as nat
  {
    Wrap32(clipLength as nat * fps as nat)
  }

  /** The number of 10 ms polls after each capture: the whole seconds per frame, times 100. */
  function WaitTicks(timeToRecord: uint32, frames: uint32): (ticks: nat)
    requires frames > 0
    ensures ticks % 100 == 0
    ensures ticks * frames as int <= 100 * timeToRecord as int
    ensures 100 * timeToRecord as int < ticks * frames as int + 100 * frames as int
  {
    (timeToRecord / frames) as int * 100
  }

  /** The `m` readings from position `p` on are all LOW (automatic). */
  predicate AllLow(inputs: nat -> Level, p: nat, m: nat) {
    forall k :: p <= k < p + m ==> inputs(k) == Low
  }

  /** The position of the first HIGH (manual) reading in `[lo, hi)`, or `hi` if none. */
  function FirstHigh(inputs: nat -> Level, lo: nat, hi: nat): (k: nat)
    requires lo <= hi
    ensures lo <= k <= hi
    decreases hi - lo
  {
    if lo == hi || inputs(lo) == High then lo else FirstHigh(inputs, lo + 1, hi)
  }

  /** How many of the `n` readings from position `p` on come before the first HIGH
      (manual) reading; `n` if there is none. */
  function FirstManual(inputs: nat -> Level, p: nat, n: nat): (m: nat)
    ensures m <= n
  {
    FirstHigh(inputs, p, p + n) - p
  }

  /** The search looks at one reading and then at the rest of the window. */
  lemma FirstManualStep(inputs: nat -> Level, p: nat, n: nat)
    ensures FirstManual(inputs, p, n) ==
            if n == 0 || inputs(p) == High then 0 else 1 + FirstManual(inputs, p + 1, n - 1)
  {
    if n > 0 {
      assert p + n == (p + 1) + (n - 1);
    }
  }

  /** `FirstManual` finds the first HIGH reading: every reading before it is LOW, and
      the one at it, if it lies in the window, is HIGH. */
  lemma {:induction false} FirstManualFinds(inputs: nat -> Level, p: nat, n: nat)
    ensures AllLow(inputs, p, FirstManual(inputs, p, n))
    ensures FirstManual(inputs, p, n) < n ==> inputs(p + FirstManual(inputs, p, n)) == High
    decreases n
  {
    FirstManualStep(inputs, p, n);
    if n > 0 && inputs(p) == Low {
      FirstManualFinds(inputs, p + 1, n - 1);
    }
  }

  /** Conversely, a count with exactly those two properties is `FirstManual`. */
  lemma {:induction false} FirstManualUnique(inputs: nat -> Level, p: nat, n: nat, m: nat)
    requires m <= n && AllLow(inputs, p, m)
    requires m < n ==> inputs(p + m) == High
    ensures FirstManual(inputs, p, n) == m
    decreases n
  {
    FirstManualStep(inputs, p, n);
    if m > 0 {
      assert inputs(p) == Low;
      FirstManualUnique(inputs, p + 1, n - 1, m - 1);
    }
  }

  /** Reading the window `[p, p + a + b)` for the first HIGH: either it lies in the
      first `a` readings, or all of those are LOW and the search continues after them. */
  lemma {:induction false} FirstManualSplit(inputs: nat -> Level, p: nat, a: nat, b: nat)
    ensures FirstManual(inputs, p, a) < a ==>
              FirstManual(inputs, p, a + b) == FirstManual(inputs, p, a)
    ensures FirstManual(inputs, p, a) == a ==>
              FirstManual(inputs, p, a + b) == a + FirstManual(inputs, p + a, b)
    decreases a
  {
    FirstManualStep(inputs, p, a);
    FirstManualStep(inputs, p, a + b);
    if a > 0 && inputs(p) == Low {
      FirstManualSplit(inputs, p + 1, a - 1, b);
      assert (a - 1) + b == a + b - 1;
    }
  }

  /** How the wait after one frame ended: after all its polls, or cancelled by a manual
      reading after `polls` automatic ones. */
  datatype Wait = Full | Cancelled(polls: nat)

  /** The waits of frames `j` to `n - 1` with `w` polls per frame, reading the switch
      from position `p`; a cancelled wait is the last one. */
  function Schedule(j: nat, n: nat, w: nat, inputs: nat -> Level, p: nat): (s: seq<Wait>)
    requires j <= n
    ensures |s| <= n - j
    decreases n - j
  {
    if j == n then []
    else
      var m := FirstManual(inputs, p, w);
      if m < w then [Cancelled(m)] else [Full] + Schedule(j + 1, n, w, inputs, p + w)
  }

  /** The switch readings a schedule consumes: `w` per full wait, and in a cancelled wait
      the automatic ones plus the manual one. */
  function Readings(s: seq<Wait>, w: nat): nat
    decreases |s|
  {
    if s == [] then 0
    else (match s[0] case Full => w case Cancelled(k) => k + 1) + Readings(s[1..], w)
  }

  /** Every wait ran to its end. */
  predicate AllFull(s: seq<Wait>)
    decreases |s|
  {
    s == [] || (s[0] == Full && AllFull(s[1..]))
  }

  /** Every wait but the last ran to its end, and the last was cancelled after `k` polls. */
  predicate CancelledLast(s: seq<Wait>, k: nat)
    decreases |s|
  {
    if |s| == 1 then s[0] == Cancelled(k)
    else |s| > 1 && s[0] == Full && CancelledLast(s[1..], k)
  }

  /** `q` waits that ran to their end. */
  function Fulls(q: nat): (s: seq<Wait>)
    ensures |s| == q
  {
    if q == 0 then [] else [Full] + Fulls(q - 1)
  }

  /** The number of switch readings `frames` uninterrupted frames consume. */
  function Window(frames: nat, w: nat): nat
    decreases frames
  {
    if frames == 0 then 0 else w + Window(frames - 1, w)
  }

  lemma WindowStep(frames: nat, w: nat)
    ensures Window(frames + 1, w) == w + Window(frames, w)
  {
  }

  lemma {:induction false} WindowIsProduct(frames: nat, w: nat)
    ensures Window(frames, w) == frames * w
    decreases frames
  {
    if frames > 0 {
      WindowIsProduct(frames - 1, w);
      assert frames * w == w + (frames - 1) * w;
    }
  }

  lemma {:induction false} WindowMonotone(a: nat, b: nat, w: nat)
    requires a <= b
    ensures Window(a, w) <= Window(b, w)
    decreases b
  {
    if a < b {
      WindowMonotone(a, b - 1, w);
    }
  }

  /** The frame (from 0) whose wait holds reading `m`, with `w > 0` readings per frame. */
  function FrameOf(m: nat, w: nat): nat
    requires w > 0
    decreases m
  {
    if m < w then 0 else 1 + FrameOf(m - w, w)
  }

  /** Reading `m` lies in the window of frame `FrameOf(m, w)`. */
  lemma {:induction false} FrameOfBounds(m: nat, w: nat)
    requires w > 0
    ensures Window(FrameOf(m, w), w) <= m < Window(FrameOf(m, w) + 1, w)
    decreases m
  {
    if m >= w {
      FrameOfBounds(m - w, w);
    }
  }

  /** That frame is the quotient `m / w`. */
  lemma FrameOfIsQuotient(m: nat, w: nat)
    requires w > 0
    ensures FrameOf(m, w) == m / w
  {
    var q := FrameOf(m, w);
    FrameOfBounds(m, w);
    WindowIsProduct(q, w);
    WindowIsProduct(q + 1, w);
    QuotientOfBounds(m, w, q);
  }

  lemma QuotientOfBounds(m: nat, w: nat, q: nat)
    requires w > 0 && q * w <= m < q * w + w
    ensures m / w == q
  {
    var d := m / w;
    assert m == d * w + m % w;
    if d < q {
      MulMonotone(d + 1, q, w);
      MulSucc(d, w);
    } else if d > q {
      MulMonotone(q + 1, d, w);
      MulSucc(q, w);
    }
  }

  lemma MulSucc(a: nat, w: nat)
    ensures (a + 1) * w == a * w + w
  {
  }

  lemma MulMonotone(a: nat, b: nat, w: nat)
    requires a <= b
    ensures a * w <= b * w
  {
  }

  lemma FullsThen(q: nat, last: Wait)
    ensures q == 0 ==> Fulls(q) + [last] == [last]
    ensures q > 0 ==> Fulls(q) + [last] == [Full] + (Fulls(q - 1) + [last])
  {
    if q == 0 {
      assert Fulls(q) + [last] == [last];
    } else {
      assert Fulls(q) + [last] == [Full] + (Fulls(q - 1) + [last]);
    }
  }

  /** A full wait in front of a schedule adds its `w` readings and keeps it complete or
      cancelled. */
  lemma FullFirst(rest: seq<Wait>, w: nat, k: nat)
    ensures Readings([Full] + rest, w) == w + Readings(rest, w)
    ensures AllFull([Full] + rest) == AllFull(rest)
    ensures CancelledLast([Full] + rest, k) == (rest != [] && CancelledLast(rest, k))
  {
    assert ([Full] + rest)[1..] == rest;
  }

  /** Uninterrupted frames consume their whole windows. */
  lemma {:induction false} FullsObserved(q: nat, w: nat)
    ensures AllFull(Fulls(q)) && Readings(Fulls(q), w) == Window(q, w)
    decreases q
  {
    if q > 0 {
      FullsObserved(q - 1, w);
      FullFirst(Fulls(q - 1), w, 0);
    }
  }

  /** Frames followed by a cancelled one consume their windows, then the cancelled wait's
      automatic readings and the manual one. */
  lemma {:induction false} CancelledAfterFulls(q: nat, r: nat, w: nat)
    ensures CancelledLast(Fulls(q) + [Cancelled(r)], r)
    ensures Readings(Fulls(q) + [Cancelled(r)], w) == Window(q, w) + r + 1
    decreases q
  {
    FullsThen(q, Cancelled(r));
    if q == 0 {
      assert [Cancelled(r)][1..] == [];
    } else {
      CancelledAfterFulls(q - 1, r, w);
      FullFirst(Fulls(q - 1) + [Cancelled(r)], w, r);
    }
  }

  /** When the switch stays in automatic position through all the readings frames `j`
      to `n - 1` can consume, every wait runs to its end. */
  lemma {:induction false} ScheduleComplete(j: nat, n: nat, w: nat, inputs: nat -> Level, p: nat)
    requires j <= n
    requires FirstManual(inputs, p, Window(n - j, w)) == Window(n - j, w)
    ensures Schedule(j, n, w, inputs, p) == Fulls(n - j)
    decreases n - j
  {
    if j < n {
      WindowStep(n - (j + 1), w);
      FirstManualSplit(inputs, p, w, Window(n - (j + 1), w));
      ScheduleComplete(j + 1, n, w, inputs, p + w);
    }
  }

  /** When the first manual reading lies in the wait of frame `j + q`, after `r` automatic
      readings of it, the frames before it run to their end and its wait is cancelled. */
  lemma {:induction false} ScheduleCancelled(j: nat, n: nat, w: nat, inputs: nat -> Level, p: nat,
                                            q: nat, r: nat)
    requires j + q < n && r < w
    requires FirstManual(inputs, p, Window(n - j, w)) == Window(q, w) + r
    ensures Schedule(j, n, w, inputs, p) == Fulls(q) + [Cancelled(r)]
    decreases q
  {
    WindowStep(n - (j + 1), w);
    FirstManualSplit(inputs, p, w, Window(n - (j + 1), w));
    FullsThen(q, Cancelled(r));
    if q > 0 {
      WindowStep(q - 1, w);
      ScheduleCancelled(j + 1, n, w, inputs, p + w, q - 1, r);
    }
  }

  /** One poll that finds the switch in automatic position, and its 10 ms wait. */
  const Poll: seq<Event> := [Read(DipSwitch, Low), DelayMs(10)]

  /** `k` polls that find the switch in automatic position. */
  function Ticks(k: nat): (t: seq<Event>)
    ensures |t| == 2 * k
  {
    if k == 0 then [] else Ticks(k - 1) + Poll
  }

  /** The poll that reads the switch in manual position, and the log line for it. */
  const Cancel: seq<Event> := [Read(DipSwitch, High), Info(TimelapseStopped)]

  /** The events of one wait with `w` polls. */
  function WaitTrace(wait: Wait, w: nat): seq<Event> {
    match wait
    case Full => Ticks(w)
    case Cancelled(k) => Ticks(k) + Cancel
  }

  /** One frame: its number logged, LED_RED on, a capture, the wait, LED_RED off. */
  function FrameTrace(j: uint32, now: DateTime, wait: seq<Event>): seq<Event> {
    [Info(FrameNumber(j)), Write(LedRed, High)] + CaptureTrace(now) + wait + [Write(LedRed, Low)]
  }

  /** The frames of a schedule, numbered from `j`, reading the clock from position `c`. */
  function Render(j: nat, s: seq<Wait>, w: nat, clock: nat -> DateTime, c: nat): seq<Event>
    requires j + |s| <= 0x1_0000_0000
    decreases |s|
  {
    if s == [] then []
    else FrameTrace(j as uint32, clock(c), WaitTrace(s[0], w)) + Render(j + 1, s[1..], w, clock, c + 1)
  }

  /** Frame `i` of a recording: its wait is decided by the next `w` switch readings, and
      unless that wait was cancelled the schedule goes on after them with frame `i + 1`. */
  lemma ScheduleStep(i: nat, n: nat, w: nat, inputs: nat -> Level, p: nat)
    requires i < n
    ensures var m := FirstManual(inputs, p, w);
            var wait := if m < w then Cancelled(m) else Full;
            var rest := if m < w then [] else Schedule(i + 1, n, w, inputs, p + w);
            var s := Schedule(i, n, w, inputs, p);
      && s == [wait] + rest
      && Readings(s, w) == (if m < w then m + 1 else w) + Readings(rest, w)
  {
    var m := FirstManual(inputs, p, w);
    var wait := if m < w then Cancelled(m) else Full;
    var rest := if m < w then [] else Schedule(i + 1, n, w, inputs, p + w);
    assert ([wait] + rest)[1..] == rest;
  }

  /** The first frame of a schedule renders in front of the others. */
  lemma RenderCons(j: nat, wait: Wait, rest: seq<Wait>, w: nat, clock: nat -> DateTime, c: nat)
    requires j + 1 + |rest| <= 0x1_0000_0000
    ensures Render(j, [wait] + rest, w, clock, c) ==
            FrameTrace(j as uint32, clock(c), WaitTrace(wait, w)) + Render(j + 1, rest, w, clock, c + 1)
  {
    assert ([wait] + rest)[1..] == rest;
  }

  /** `recordTimelapse(timeToRecord, clipLength, fps)`, reading the switch from position
      `p` and the clock from position `c`. */
  function TimelapseRun(timeToRecord: uint32, clipLength: uint32, fps: uint32,
                        inputs: nat -> Level, p: nat, clock: nat -> DateTime, c: nat): Run
  {
    var frames := FrameCount(clipLength, fps);
    if frames == 0 then NoRun
    else Recording(frames as nat, WaitTicks(timeToRecord, frames), inputs, p, clock, c)
  }

  /** The frame loop of `recordTimelapse` with `frames` frames of `w` polls each. */
  function Recording(frames: nat, w: nat, inputs: nat -> Level, p: nat,
                     clock: nat -> DateTime, c: nat): Run
    requires frames <= 0x1_0000_0000
  {
    var s := Schedule(0, frames, w, inputs, p);
    Run(Render(0, s, w, clock, c), Readings(s, w), |s|)
  }

  /** The log lines of `k` uninterrupted frames numbered from `j`. */
  function FrameLog(j: nat, k: nat, clock: nat -> DateTime, c: nat): (log: seq<Note>)
    requires j + k <= 0x1_0000_0000
    ensures |log| == 2 * k
    decreases k
  {
    if k == 0 then []
    else [FrameNumber(j as uint32), Capturing(clock(c))] + FrameLog(j + 1, k - 1, clock, c + 1)
  }

  /** The log of uninterrupted frames is in frame order: entry `2 * x` numbers frame `j + x`
      and entry `2 * x + 1` is its capture tag, from clock reading `c + x`. */
  lemma {:induction false} FrameLogAt(j: nat, k: nat, clock: nat -> DateTime, c: nat, x: nat)
    requires j + k <= 0x1_0000_0000 && x < k
    ensures FrameLog(j, k, clock, c)[2 * x] == FrameNumber((j + x) as uint32)
    ensures FrameLog(j, k, clock, c)[2 * x + 1] == Capturing(clock(c + x))
    decreases x
  {
    var head := [FrameNumber(j as uint32), Capturing(clock(c))];
    var rest := FrameLog(j + 1, k - 1, clock, c + 1);
    assert FrameLog(j, k, clock, c) == head + rest;
    if x > 0 {
      FrameLogAt(j + 1, k - 1, clock, c + 1, x - 1);
      assert (head + rest)[2 * x] == rest[2 * (x - 1)];
      assert (head + rest)[2 * x + 1] == rest[2 * (x - 1) + 1];
    }
  }

  lemma NotesAssoc(a: seq<Note>, b: seq<Note>, c: seq<Note>)
    ensures a + (b + c) == (a + b) + c
  {
  }

  lemma FrameLogCons(j: nat, k: nat, clock: nat -> DateTime, c: nat)
    requires 0 < k && j + k <= 0x1_0000_0000
    ensures FrameLog(j, k, clock, c) ==
            [FrameNumber(j as uint32), Capturing(clock(c))] + FrameLog(j + 1, k - 1, clock, c + 1)
  {
  }

  /** The polls log nothing, leave LED_RED alone, and read only while LED_RED is HIGH if
      it was HIGH before. */
  lemma {:induction false} TicksObserved(red: Level, k: nat, watched: set<Pin>)
    ensures Messages(Ticks(k)) == []
    ensures RedAfter(red, Ticks(k)) == red
    ensures red == High ==> RedHighAt(red, Ticks(k), watched)
    decreases k
  {
    if k > 0 {
      TicksObserved(red, k - 1, watched);
      PollObserved(red, watched);
      ObservedAppend(red, Ticks(k - 1), Poll, watched);
    }
  }

  lemma PollObserved(red: Level, watched: set<Pin>)
    ensures Messages(Poll) == []
    ensures RedAfter(red, Poll) == red
    ensures red == High ==> RedHighAt(red, Poll, watched)
  {
    assert Poll == [Read(DipSwitch, Low)] + [DelayMs(10)];
    ObservedOne(red, Read(DipSwitch, Low), watched);
    ObservedOne(red, DelayMs(10), watched);
    ObservedAppend(red, [Read(DipSwitch, Low)], [DelayMs(10)], watched);
  }

  /** The cancelling poll logs the stop message and leaves LED_RED alone. */
  lemma CancelObserved(watched: set<Pin>)
    ensures Messages(Cancel) == [TimelapseStopped]
    ensures RedAfter(High, Cancel) == High
    ensures RedHighAt(High, Cancel, watched)
  {
    assert Cancel == [Read(DipSwitch, High)] + [Info(TimelapseStopped)];
    ObservedOne(High, Read(DipSwitch, High), watched);
    ObservedOne(High, Info(TimelapseStopped), watched);
    ObservedAppend(High, [Read(DipSwitch, High)], [Info(TimelapseStopped)], watched);
  }

  /** What a frame's bracket adds to its capture and wait: the logged line before them,
      LED_RED on before them and off after them. */
  lemma BracketObserved(red: Level, line: Note, capture: seq<Event>, wait: seq<Event>,
                        watched: set<Pin>)
    requires LedRed !in watched
    requires RedAfter(High, capture) == High && RedHighAt(High, capture, watched)
    requires RedAfter(High, wait) == High && RedHighAt(High, wait, watched)
    ensures var t := [Info(line), Write(LedRed, High)] + capture + wait + [Write(LedRed, Low)];
      && Messages(t) == [line] + Messages(capture) + Messages(wait)
      && RedAfter(red, t) == Low
      && RedHighAt(red, t, watched)
  {
    var head := [Info(line), Write(LedRed, High)];
    assert head == [Info(line)] + [Write(LedRed, High)];
    ObservedOne(red, Info(line), watched);
    ObservedOne(red, Write(LedRed, High), watched);
    ObservedAppend(red, [Info(line)], [Write(LedRed, High)], watched);
    ObservedAppend(red, head, capture, watched);
    ObservedAppend(red, head + capture, wait, watched);
    ObservedOne(High, Write(LedRed, Low), watched);
    ObservedAppend(red, head + capture + wait, [Write(LedRed, Low)], watched);
    assert [line] + [] == [line];
  }

  /** A frame logs its number and its capture tag, then whatever its wait logs; it turns
      LED_RED off at its end, and if its wait only touches pins while LED_RED stays HIGH,
      LED_GREEN and the DIP switch are only touched while LED_RED is HIGH. */
  lemma FrameObserved(red: Level, j: uint32, now: DateTime, wait: seq<Event>)
    requires RedAfter(High, wait) == High
    requires RedHighAt(High, wait, {LedGreen, DipSwitch})
    ensures Messages(FrameTrace(j, now, wait)) == [FrameNumber(j), Capturing(now)] + Messages(wait)
    ensures RedAfter(red, FrameTrace(j, now, wait)) == Low
    ensures RedHighAt(red, FrameTrace(j, now, wait), {LedGreen, DipSwitch})
  {
    CaptureObserved(High, now, {LedGreen, DipSwitch});
    BracketObserved(red, FrameNumber(j), CaptureTrace(now), wait, {LedGreen, DipSwitch});
  }

  /** A frame whose wait ran to its end logs its number and its capture tag. */
  lemma FullFrameObserved(red: Level, j: uint32, now: DateTime, k: nat)
    ensures Messages(FrameTrace(j, now, Ticks(k))) == [FrameNumber(j), Capturing(now)]
    ensures RedAfter(red, FrameTrace(j, now, Ticks(k))) == Low
    ensures RedHighAt(red, FrameTrace(j, now, Ticks(k)), {LedGreen, DipSwitch})
  {
    TicksObserved(High, k, {LedGreen, DipSwitch});
    FrameObserved(red, j, now, Ticks(k));
    assert [FrameNumber(j), Capturing(now)] + [] == [FrameNumber(j), Capturing(now)];
  }

  /** A frame whose wait was cancelled logs its number, its capture tag and the stop
      message. */
  lemma CancelledFrameObserved(red: Level, j: uint32, now: DateTime, k: nat)
    ensures Messages(FrameTrace(j, now, Ticks(k) + Cancel)) ==
            [FrameNumber(j), Capturing(now), TimelapseStopped]
    ensures RedAfter(red, FrameTrace(j, now, Ticks(k) + Cancel)) == Low
    ensures RedHighAt(red, FrameTrace(j, now, Ticks(k) + Cancel), {LedGreen, DipSwitch})
  {
    var watched := {LedGreen, DipSwitch};
    TicksObserved(High, k, watched);
    CancelObserved(watched);
    ObservedAppend(High, Ticks(k), Cancel, watched);
    FrameObserved(red, j, now, Ticks(k) + Cancel);
    assert [FrameNumber(j), Capturing(now)] + [TimelapseStopped] ==
           [FrameNumber(j), Capturing(now), TimelapseStopped];
  }

  /** LED_RED brackets every frame of any schedule: LED_GREEN is pulsed and the DIP switch
      read only while it is HIGH, and once a frame has run it is LOW again. */
  lemma {:induction false} RenderLedProtocol(red: Level, j: nat, s: seq<Wait>, w: nat,
                                            clock: nat -> DateTime, c: nat)
    requires j + |s| <= 0x1_0000_0000
    ensures RedHighAt(red, Render(j, s, w, clock, c), {LedGreen, DipSwitch})
    ensures RedAfter(red, Render(j, s, w, clock, c)) == (if s == [] then red else Low)
    decreases |s|
  {
    if s != [] {
      var frame := FrameTrace(j as uint32, clock(c), WaitTrace(s[0], w));
      var rest := Render(j + 1, s[1..], w, clock, c + 1);
      if s[0].Full? {
        FullFrameObserved(red, j as uint32, clock(c), w);
      } else {
        CancelledFrameObserved(red, j as uint32, clock(c), s[0].polls);
      }
      RenderLedProtocol(Low, j + 1, s[1..], w, clock, c + 1);
      RedAfterAppend(red, frame, rest);
      RedHighAtAppend(red, frame, rest, {LedGreen, DipSwitch});
    }
  }

  /** The log of a schedule whose waits all ran to their end: the number and capture tag
      of every frame. */
  lemma {:induction false} RenderLogComplete(j: nat, s: seq<Wait>, w: nat,
                                            clock: nat -> DateTime, c: nat)
    requires j + |s| <= 0x1_0000_0000
    requires AllFull(s)
    ensures Messages(Render(j, s, w, clock, c)) == FrameLog(j, |s|, clock, c)
    decreases |s|
  {
    if s != [] {
      var frame := FrameTrace(j as uint32, clock(c), Ticks(w));
      var rest := Render(j + 1, s[1..], w, clock, c + 1);
      RenderLogComplete(j + 1, s[1..], w, clock, c + 1);
      FullFrameObserved(Low, j as uint32, clock(c), w);
      MessagesAppend(frame, rest);
    }
  }

  /** The log of a cancelled schedule: the number and capture tag of every frame, then the
      stop message. */
  lemma {:induction false} RenderLogCancelled(j: nat, s: seq<Wait>, w: nat, k: nat,
                                             clock: nat -> DateTime, c: nat)
    requires j + |s| <= 0x1_0000_0000
    requires CancelledLast(s, k)
    ensures Messages(Render(j, s, w, clock, c)) == FrameLog(j, |s|, clock, c) + [TimelapseStopped]
    decreases |s|
  {
    var line, tag := FrameNumber(j as uint32), Capturing(clock(c));
    var rest := Render(j + 1, s[1..], w, clock, c + 1);
    if |s| == 1 {
      var frame := FrameTrace(j as uint32, clock(c), Ticks(k) + Cancel);
      CancelledFrameObserved(Low, j as uint32, clock(c), k);
      MessagesAppend(frame, rest);
      assert FrameLog(j, 1, clock, c) == [line, tag];
    } else {
      RenderLogCancelled(j + 1, s[1..], w, k, clock, c + 1);
      FullFrameLogged(j, s, w, clock, c);
    }
  }

  /** A full frame in front of a cancelled rest adds its two lines in front of the rest's log. */
  lemma FullFrameLogged(j: nat, s: seq<Wait>, w: nat, clock: nat -> DateTime, c: nat)
    requires 1 < |s| && j + |s| <= 0x1_0000_0000 && s[0] == Full
    requires Messages(Render(j + 1, s[1..], w, clock, c + 1)) ==
             FrameLog(j + 1, |s| - 1, clock, c + 1) + [TimelapseStopped]
    ensures Messages(Render(j, s, w, clock, c)) == FrameLog(j, |s|, clock, c) + [TimelapseStopped]
  {
    var line, tag := FrameNumber(j as uint32), Capturing(clock(c));
    var rest := Render(j + 1, s[1..], w, clock, c + 1);
    var frame := FrameTrace(j as uint32, clock(c), Ticks(w));
    var log := FrameLog(j + 1, |s| - 1, clock, c + 1);
    FullFrameObserved(Low, j as uint32, clock(c), w);
    MessagesAppend(frame, rest);
    calc {
      Messages(Render(j, s, w, clock, c));
      Messages(frame + rest);
      Messages(frame) + Messages(rest);
      [line, tag] + (log + [TimelapseStopped]);
      { NotesAssoc([line, tag], log, [TimelapseStopped]); }
      ([line, tag] + log) + [TimelapseStopped];
      { FrameLogCons(j, |s|, clock, c); }
      FrameLog(j, |s|, clock, c) + [TimelapseStopped];
    }
  }

  /** A recording that the switch never cancels: every frame is captured, numbered from 0
      and logged with its capture tag, every poll is made, and LED_RED is HIGH whenever
      LED_GREEN or the switch is touched and LOW at the end. */
  lemma RecordingComplete(frames: nat, w: nat, inputs: nat -> Level, p: nat,
                          clock: nat -> DateTime, c: nat, red: Level)
    requires 0 < frames <= 0x1_0000_0000
    requires AllLow(inputs, p, frames * w)
    ensures var run := Recording(frames, w, inputs, p, clock, c);
      && run.captures == frames
      && run.readings == frames * w
      && Messages(run.events) == FrameLog(0, frames, clock, c)
      && RedHighAt(red, run.events, {LedGreen, DipSwitch})
      && RedAfter(red, run.events) == Low
  {
    WindowIsProduct(frames, w);
    FirstManualUnique(inputs, p, frames * w, frames * w);
    ScheduleComplete(0, frames, w, inputs, p);
    FullsObserved(frames, w);
    RenderLogComplete(0, Fulls(frames), w, clock, c);
    RenderLedProtocol(red, 0, Fulls(frames), w, clock, c);
  }

  /** A recording whose first manual switch reading is reading `m`: it lies in the wait of
      frame `m / w`, so that frame is the last one captured; no poll follows it, the stop
      message is the last line logged, and LED_RED still ends LOW. */
  lemma RecordingCancelled(frames: nat, w: nat, inputs: nat -> Level, p: nat,
                           clock: nat -> DateTime, c: nat, red: Level, m: nat)
    requires frames <= 0x1_0000_0000
    requires m < frames * w
    requires AllLow(inputs, p, m) && inputs(p + m) == High
    ensures var run := Recording(frames, w, inputs, p, clock, c);
      && run.captures == m / w + 1 <= frames
      && run.readings == m + 1
      && Messages(run.events) == FrameLog(0, m / w + 1, clock, c) + [TimelapseStopped]
      && RedHighAt(red, run.events, {LedGreen, DipSwitch})
      && RedAfter(red, run.events) == Low
  {
    WindowIsProduct(frames, w);
    var q := FrameOf(m, w);
    FrameOfBounds(m, w);
    FrameOfIsQuotient(m, w);
    WindowBelow(q, frames, w);
    WindowStep(q, w);
    var r := m - Window(q, w);
    FirstManualUnique(inputs, p, Window(frames, w), m);
    ScheduleCancelled(0, frames, w, inputs, p, q, r);
    var s := Fulls(q) + [Cancelled(r)];
    CancelledAfterFulls(q, r, w);
    RenderLogCancelled(0, s, w, r, clock, c);
    RenderLedProtocol(red, 0, s, w, clock, c);
  }

  lemma WindowBelow(a: nat, b: nat, w: nat)
    requires Window(a, w) < Window(b, w)
    ensures a < b
  {
    if b <= a {
      WindowMonotone(b, a, w);
    }
  }

  /** When the whole seconds per frame are 0, no switch reading is taken, so nothing can
      cancel the recording: every frame is captured. */
  lemma ShortRecordingNeverPolls(timeToRecord: uint32, clipLength: uint32, fps: uint32,
                                 inputs: nat -> Level, p: nat, clock: nat -> DateTime, c: nat)
    requires timeToRecord < FrameCount(clipLength, fps)
    ensures var run := TimelapseRun(timeToRecord, clipLength, fps, inputs, p, clock, c);
      && run.readings == 0
      && run.captures == FrameCount(clipLength, fps) as nat
      && Messages(run.events) == FrameLog(0, run.captures, clock, c)
  {
    var frames := FrameCount(clipLength, fps);
    NoWholeSecond(timeToRecord, frames);
    RecordingWithoutWait(frames as nat, inputs, p, clock, c);
  }

  lemma NoWholeSecond(timeToRecord: uint32, frames: uint32)
    requires timeToRecord < frames
    ensures WaitTicks(timeToRecord, frames) == 0
  {
    QuotientOfSmaller(timeToRecord as int, frames as int);
  }

  lemma QuotientOfSmaller(a: int, b: int)
    requires 0 <= a < b
    ensures a / b == 0
  {
    var q, r := a / b, a % b;
    assert a == b * q + r && 0 <= r < b;
  }

  lemma RecordingWithoutWait(frames: nat, inputs: nat -> Level, p: nat,
                             clock: nat -> DateTime, c: nat)
    requires 0 < frames <= 0x1_0000_0000
    ensures var run := Recording(frames, 0, inputs, p, clock, c);
      && run.readings == 0
      && run.captures == frames
      && Messages(run.events) == FrameLog(0, frames, clock, c)
  {
    assert frames * 0 == 0;
    RecordingComplete(frames, 0, inputs, p, clock, c, Low);
  }

  /** The frame count is a 32-bit product: 65536 * 65536 wraps to 0 and nothing runs. */
  lemma WrappedFrameCount(timeToRecord: uint32, inputs: nat -> Level, p: nat,
                          clock: nat -> DateTime, c: nat)
    ensures FrameCount(65536, 65536) == 0
    ensures TimelapseRun(timeToRecord, 65536, 65536, inputs, p, clock, c) == NoRun
  {
    assert 65536 * 65536 == 0x1_0000_0000;
  }

  /** The timelapse the button starts, `recordTimelapse(7200, 60, 30)`: 1800 frames with a
      wait of 400 polls (4 s) each; left in automatic position it takes all 1800 images. */
  lemma TwoHourTimelapse(inputs: nat -> Level, p: nat, clock: nat -> DateTime, c: nat)
    ensures FrameCount(60, 30) == 1800 && WaitTicks(7200, 1800) == 400
    ensures var run := TimelapseRun(7200, 60, 30, inputs, p, clock, c);
      AllLow(inputs, p, 720_000) ==> run.captures == 1800 && run.readings == 720_000
  {
    assert FrameCount(60, 30) == 1800;
    if AllLow(inputs, p, 720_000) {
      RecordingComplete(1800, 400, inputs, p, clock, c, Low);
    }
  }

  /** Over any `recordTimelapse` call, LED_GREEN and the switch are only touched while
      LED_RED is HIGH, and LED_RED is LOW at the end if any frame ran. */
  lemma TimelapseLedProtocol(red: Level, timeToRecord: uint32, clipLength: uint32, fps: uint32,
                             inputs: nat -> Level, p: nat, clock: nat -> DateTime, c: nat)
    ensures var run := TimelapseRun(timeToRecord, clipLength, fps, inputs, p, clock, c);
      && RedHighAt(red, run.events, {LedGreen, DipSwitch})
      && RedAfter(red, run.events) == (if run.captures == 0 then red else Low)
  {
    var frames := FrameCount(clipLength, fps);
    if frames > 0 {
      var w := WaitTicks(timeToRecord, frames);
      RenderLedProtocol(red, 0, Schedule(0, frames as nat, w, inputs, p), w, clock, c);
    }
  }
}
