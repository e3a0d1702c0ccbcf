/** The infrared trigger emitted by `captureImage`: four bursts of LED_GREEN pulses separated
    by three pauses, plus a decoder that reads a trace back as bursts and pauses. */
module Waveform {
  import opened Io

  /** One call of the `toggleLed` lambda: HIGH for 7 µs, then LOW for 7 µs. */
  const Toggle: seq<Event> := [Write(LedGreen, High), DelayUs(7), Write(LedGreen, Low), DelayUs(7)]

  /** `n` consecutive toggles. */
  function Burst(n: nat): (t: seq<Event>)
    ensures |t| == 4 * n
  {
    seq(4 * n, i requires 0 <= i < 4 * n => Toggle[i % 4])
  }

  /** A burst is what a counting loop produces: one more toggle appended each time. */
  lemma BurstSnoc(n: nat)
    ensures Burst(n + 1) == Burst(n) + Toggle
  {
    var a, b := Burst(n + 1), Burst(n) + Toggle;
    forall i | 0 <= i < |a| ensures a[i] == b[i] {
      if i >= 4 * n {
        assert b[i] == Toggle[i - 4 * n];
      }
    }
  }

  /** Everything `captureImage` drives on LED_GREEN, in order. */
  function TriggerWaveform(): seq<Event> {
    Burst(76) + FirstPause
    + Burst(16) + SecondPause
    + Burst(16) + ThirdPause
    + Burst(16)
  }

  /** The waits between the four bursts. */
  const FirstPause: seq<Event> := [DelayMs(27), DelayUs(810)]
  const SecondPause: seq<Event> := [DelayUs(1540)]
  const ThirdPause: seq<Event> := [DelayUs(3545)]

  /** One capture: the tag log line for the clock reading, then the trigger. */
  function CaptureTrace(now: DateTime): seq<Event> {
    [Info(Capturing(now))] + TriggerWaveform()
  }

  /** A trace read back as the shape of a pulse protocol. */
  datatype Segment =
    | Pulses(pairs: nat)   // that many 7 µs HIGH / 7 µs LOW pairs
    | Pause(us: nat)       // consecutive delays, their total in microseconds
    | Stray(e: Event)      // anything else

  predicate IsDelay(e: Event) {
    e.DelayMs? || e.DelayUs?
  }

  predicate AllDelays(p: seq<Event>) {
    forall i :: 0 <= i < |p| ==> IsDelay(p[i])
  }

  function Micros(e: Event): nat {
    match e
    case DelayMs(ms) => 1000 * ms
    case DelayUs(us) => us
    case _ => 0
  }

  /** The total time a trace spends in delays, in microseconds. */
  function TotalMicros(t: seq<Event>): nat
    decreases |t|
  {
    if t == [] then 0 else Micros(t[0]) + TotalMicros(t[1..])
  }

  /** How many whole toggles the trace starts with. */
  function LeadingPairs(t: seq<Event>): (n: nat)
    ensures 4 * n <= |t|
    decreases |t|
  {
    if |t| >= 4 && t[..4] == Toggle then 1 + LeadingPairs(t[4..]) else 0
  }

  /** How many delays the trace starts with. */
  function LeadingDelays(t: seq<Event>): (n: nat)
    ensures n <= |t|
    decreases |t|
  {
    if t != [] && IsDelay(t[0]) then 1 + LeadingDelays(t[1..]) else 0
  }

  /** The first segment of a non-empty trace and how many events it spans. */
  function NextSegment(t: seq<Event>): (r: (Segment, nat))
    requires t != []
    ensures 0 < r.1 <= |t|
  {
    var n := LeadingPairs(t);
    if n > 0 then (Pulses(n), 4 * n)
    else
      var d := LeadingDelays(t);
      if d > 0 then (Pause(TotalMicros(t[..d])), d)
      else (Stray(t[0]), 1)
  }

  /** Decodes a trace into maximal runs of pulse pairs and of delays. */
  function Shape(t: seq<Event>): seq<Segment>
    decreases |t|
  {
    if t == [] then []
    else
      var (seg, k) := NextSegment(t);
      [seg] + Shape(t[k..])
  }

  /** A rest of a trace that cannot continue a burst. */
  predicate EndsBurst(r: seq<Event>) {
    r == [] || IsDelay(r[0])
  }

  lemma BurstCons(n: nat)
    requires n > 0
    ensures Burst(n) == Toggle + Burst(n - 1)
  {
    var a, b := Burst(n), Toggle + Burst(n - 1);
    forall i | 0 <= i < |a| ensures a[i] == b[i] {
      if i >= 4 {
        assert b[i] == Burst(n - 1)[i - 4];
      }
    }
  }

  lemma {:induction false} LeadingPairsOfBurst(n: nat, r: seq<Event>)
    requires EndsBurst(r)
    ensures LeadingPairs(Burst(n) + r) == n
    ensures (Burst(n) + r)[4 * n..] == r
    decreases n
  {
    if n == 0 {
      assert Burst(n) + r == r;
      if |r| >= 4 {
        assert r[..4][0] == r[0];
      }
    } else {
      BurstCons(n);
      var t := Burst(n) + r;
      assert t[..4] == Toggle;
      assert t[4..] == Burst(n - 1) + r;
      LeadingPairsOfBurst(n - 1, r);
    }
  }

  lemma ShapeOfBurst(n: nat, r: seq<Event>)
    requires n > 0 && EndsBurst(r)
    ensures Shape(Burst(n) + r) == [Pulses(n)] + Shape(r)
  {
    LeadingPairsOfBurst(n, r);
    assert NextSegment(Burst(n) + r) == (Pulses(n), 4 * n);
  }

  lemma {:induction false} LeadingDelaysOfPause(p: seq<Event>, r: seq<Event>)
    requires AllDelays(p)
    requires r == [] || !IsDelay(r[0])
    ensures LeadingDelays(p + r) == |p|
    decreases |p|
  {
    if p == [] {
      assert p + r == r;
    } else {
      assert (p + r)[1..] == p[1..] + r;
      LeadingDelaysOfPause(p[1..], r);
    }
  }

  /** A pause of one or more delays followed by a burst decodes as one `Pause` of their total. */
  lemma ShapeOfPause(p: seq<Event>, n: nat, r: seq<Event>)
    requires p != [] && AllDelays(p)
    requires n > 0
    ensures Shape(p + (Burst(n) + r)) == [Pause(TotalMicros(p))] + Shape(Burst(n) + r)
  {
    BurstCons(n);
    var t := p + (Burst(n) + r);
    LeadingDelaysOfPause(p, Burst(n) + r);
    assert t[..|p|] == p;
    assert t[|p|..] == Burst(n) + r;
    if |t| >= 4 {
      assert t[..4][0] == t[0];
    }
    assert NextSegment(t) == (Pause(TotalMicros(p)), |p|);
  }

  /** A pause followed by a burst and then the rest of a trace. */
  function Staged(p: seq<Event>, n: nat, r: seq<Event>): seq<Event> {
    p + (Burst(n) + r)
  }

  /** What a pause followed by a burst decodes to. */
  function StageShape(p: seq<Event>, n: nat): seq<Segment> {
    [Pause(TotalMicros(p)), Pulses(n)]
  }

  /** A pause followed by a burst decodes as the two segments. */
  lemma ShapeOfStage(p: seq<Event>, n: nat, r: seq<Event>)
    requires p != [] && AllDelays(p)
    requires n > 0 && EndsBurst(r)
    ensures EndsBurst(Staged(p, n, r))
    ensures Shape(Staged(p, n, r)) == StageShape(p, n) + Shape(r)
  {
    ShapeOfBurst(n, r);
    ShapeOfPause(p, n, r);
    ConsTwo(Pause(TotalMicros(p)), Pulses(n), Shape(r));
  }

  lemma ConsTwo(x: Segment, y: Segment, s: seq<Segment>)
    ensures [x] + ([y] + s) == [x, y] + s
  {
  }

  /** The decoded trigger: 76, 16, 16 and 16 pulse pairs separated by pauses of
      27810 µs, 1540 µs and 3545 µs, with nothing after the last burst. */
  lemma TriggerShape()
    ensures Shape(TriggerWaveform()) ==
      [Pulses(76), Pause(27810), Pulses(16), Pause(1540), Pulses(16), Pause(3545), Pulses(16)]
  {
    var r3 := Staged(ThirdPause, 16, []);
    var r2 := Staged(SecondPause, 16, r3);
    var r1 := Staged(FirstPause, 16, r2);
    PauseFacts();
    ShapeOfStage(ThirdPause, 16, []);
    ShapeOfStage(SecondPause, 16, r3);
    ShapeOfStage(FirstPause, 16, r2);
    ShapeOfBurst(76, r1);
    TriggerStaged();
    TriggerSegments(StageShape(FirstPause, 16), StageShape(SecondPause, 16), StageShape(ThirdPause, 16));
  }

  /** The trigger regrouped as its first burst followed by three pause-burst stages. */
  lemma TriggerStaged()
    ensures TriggerWaveform() ==
      Burst(76) + Staged(FirstPause, 16, Staged(SecondPause, 16, Staged(ThirdPause, 16, [])))
  {
    assert Burst(16) + [] == Burst(16);
  }

  lemma PauseFacts()
    ensures AllDelays(FirstPause) && TotalMicros(FirstPause) == 27810
    ensures AllDelays(SecondPause) && TotalMicros(SecondPause) == 1540
    ensures AllDelays(ThirdPause) && TotalMicros(ThirdPause) == 3545
  {
    assert FirstPause[1..] == [DelayUs(810)];
  }

  lemma TriggerSegments(sa: seq<Segment>, sb: seq<Segment>, sc: seq<Segment>)
    requires sa == [Pause(27810), Pulses(16)]
    requires sb == [Pause(1540), Pulses(16)]
    requires sc == [Pause(3545), Pulses(16)]
    ensures [Pulses(76)] + (sa + (sb + (sc + []))) ==
      [Pulses(76), Pause(27810), Pulses(16), Pause(1540), Pulses(16), Pause(3545), Pulses(16)]
  {
  }

  lemma {:induction false} TotalMicrosAppend(a: seq<Event>, b: seq<Event>)
    ensures TotalMicros(a + b) == TotalMicros(a) + TotalMicros(b)
    decreases |a|
  {
    if a == [] {
      assert a + b == b;
    } else {
      assert (a + b)[0] == a[0] && (a + b)[1..] == a[1..] + b;
      TotalMicrosAppend(a[1..], b);
    }
  }

  lemma {:induction false} BurstMicros(n: nat)
    ensures TotalMicros(Burst(n)) == 14 * n
    decreases n
  {
    if n > 0 {
      ToggleMicros();
      BurstMicros(n - 1);
      BurstSnoc(n - 1);
      TotalMicrosAppend(Burst(n - 1), Toggle);
    }
  }

  lemma ToggleMicros()
    ensures TotalMicros(Toggle) == 14
  {
    var w := [Write(LedGreen, Low), DelayUs(7)];
    assert TotalMicros(w[1..]) == 7;
    assert TotalMicros([DelayUs(7)] + w) == 14 by {
      assert ([DelayUs(7)] + w)[1..] == w;
    }
    assert Toggle[1..] == [DelayUs(7)] + w;
  }

  /** The trigger lasts 34631 µs of delays: 124 pairs of 14 µs plus the three pauses. */
  lemma TriggerDuration()
    ensures TotalMicros(TriggerWaveform()) == 124 * 14 + 27810 + 1540 + 3545 == 34631
  {
    var pa, pb, pc := FirstPause, SecondPause, ThirdPause;
    PauseFacts();
    BurstMicros(76);
    BurstMicros(16);
    TotalMicrosAppend(Burst(76), pa);
    TotalMicrosAppend(Burst(76) + pa, Burst(16));
    TotalMicrosAppend(Burst(76) + pa + Burst(16), pb);
    TotalMicrosAppend(Burst(76) + pa + Burst(16) + pb, Burst(16));
    TotalMicrosAppend(Burst(76) + pa + Burst(16) + pb + Burst(16), pc);
    TotalMicrosAppend(Burst(76) + pa + Burst(16) + pb + Burst(16) + pc, Burst(16));
  }

  lemma {:induction false} BurstSilent(n: nat)
    ensures Silent(Burst(n))
    decreases n
  {
    if n > 0 {
      BurstSilent(n - 1);
      BurstSnoc(n - 1);
      SilentAppend(Burst(n - 1), Toggle);
    }
  }

  /** The trigger only pulses LED_GREEN and waits: it logs nothing, reads no pin and
      leaves LED_RED alone. */
  lemma TriggerSilent()
    ensures Silent(TriggerWaveform())
  {
    var pa, pb, pc := FirstPause, SecondPause, ThirdPause;
    BurstSilent(76);
    BurstSilent(16);
    SilentAppend(Burst(76), pa);
    SilentAppend(Burst(76) + pa, Burst(16));
    SilentAppend(Burst(76) + pa + Burst(16), pb);
    SilentAppend(Burst(76) + pa + Burst(16) + pb, Burst(16));
    SilentAppend(Burst(76) + pa + Burst(16) + pb + Burst(16), pc);
    SilentAppend(Burst(76) + pa + Burst(16) + pb + Burst(16) + pc, Burst(16));
  }

  /** A capture logs exactly its tag, leaves LED_RED as it was, and pulses LED_GREEN
      only while LED_RED is HIGH if LED_RED was HIGH when it started. */
  lemma CaptureObserved(red: Level, now: DateTime, watched: set<Pin>)
    ensures Messages(CaptureTrace(now)) == [Capturing(now)]
    ensures RedAfter(red, CaptureTrace(now)) == red
    ensures red == High ==> RedHighAt(red, CaptureTrace(now), watched)
  {
    TriggerSilent();
    SilentIsInvisible(red, TriggerWaveform(), watched);
    MessagesAppend([Info(Capturing(now))], TriggerWaveform());
    RedAfterAppend(red, [Info(Capturing(now))], TriggerWaveform());
    RedHighAtAppend(red, [Info(Capturing(now))], TriggerWaveform(), watched);
  }
}
