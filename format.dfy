/** The text the sketch logs: `snprintf` with `%0Nd` / `%05i` into fixed buffers. */
module Format {
  import opened Io

  predicate IsDigit(c: char) {
    '0' <= c <= '9'
  }

  predicate AllDigits(s: string) {
    forall i :: 0 <= i < |s| ==> IsDigit(s[i])
  }

  function DigitChar(d: nat): (c: char)
    requires d < 10
    ensures IsDigit(c) && c as int - '0' as int == d
  {
    ('0' as int + d) as char
  }

  function DigitValue(c: char): (d: nat)
    requires IsDigit(c)
    ensures d < 10 && DigitChar(d) == c
  {
    c as int - '0' as int
  }

  function Pow10(k: nat): (r: nat)
    ensures r >= 1
  {
    if k == 0 then 1 else 10 * Pow10(k - 1)
  }

  /** `%d` of a non-negative number: its decimal digits, without leading zeros. */
  function Decimal(n: nat): (s: string)
    ensures 1 <= |s| && AllDigits(s)
    ensures n > 0 ==> s[0] != '0'
    decreases n
  {
    if n < 10 then [DigitChar(n)] else Decimal(n / 10) + [DigitChar(n % 10)]
  }

  /** Reading a string of digits back as a number. */
  function ParseDecimal(s: string): nat
    requires AllDigits(s)
    decreases |s|
  {
    if s == [] then 0 else 10 * ParseDecimal(s[..|s| - 1]) + DigitValue(s[|s| - 1])
  }

  function Zeros(k: nat): (s: string)
    ensures |s| == k && AllDigits(s)
    ensures forall i :: 0 <= i < k ==> s[i] == '0'
  {
    seq(k, _ => '0')
  }

  /** `%0<width>d`: the decimal digits, left-padded with '0' up to `width` characters. */
  function ZeroPad(n: nat, width: nat): (s: string)
    ensures AllDigits(s)
    ensures |s| == if |Decimal(n)| < width then width else |Decimal(n)|
  {
    var d := Decimal(n);
    if |d| < width then Zeros(width - |d|) + d else d
  }

  /** `snprintf` into a buffer of `size` bytes keeps at most `size - 1` characters. */
  function Truncate(s: string, size: nat): (r: string)
    requires size >= 1
    ensures |r| <= size - 1 && r <= s
    ensures |s| < size ==> r == s
  {
    if |s| < size then s else s[..size - 1]
  }

  lemma {:induction false} ParseDecimalOfDecimal(n: nat)
    ensures ParseDecimal(Decimal(n)) == n
    decreases n
  {
    if n >= 10 {
      var s := Decimal(n);
      assert s[..|s| - 1] == Decimal(n / 10);
      ParseDecimalOfDecimal(n / 10);
    }
  }

  lemma {:induction false} ParseLeadingZeros(k: nat, s: string)
    requires AllDigits(s)
    ensures AllDigits(Zeros(k) + s)
    ensures ParseDecimal(Zeros(k) + s) == ParseDecimal(s)
    decreases |s|
  {
    var z := Zeros(k) + s;
    if s == [] {
      ParseZeros(k);
      assert z == Zeros(k);
    } else {
      assert z[..|z| - 1] == Zeros(k) + s[..|s| - 1];
      ParseLeadingZeros(k, s[..|s| - 1]);
    }
  }

  lemma {:induction false} ParseZeros(k: nat)
    ensures ParseDecimal(Zeros(k)) == 0
    decreases k
  {
    if k > 0 {
      assert Zeros(k)[..k - 1] == Zeros(k - 1);
      ParseZeros(k - 1);
    }
  }

  /** Zero padding loses nothing: the padded field reads back as the number. */
  lemma {:induction false} ParseZeroPad(n: nat, width: nat)
    ensures ParseDecimal(ZeroPad(n, width)) == n
  {
    var d := Decimal(n);
    ParseDecimalOfDecimal(n);
    if |d| < width {
      assert ZeroPad(n, width) == Zeros(width - |d|) + d;
      ParseLeadingZeros(width - |d|, d);
    } else {
      assert ZeroPad(n, width) == d;
    }
  }

  lemma {:induction false} DecimalFits(n: nat, k: nat)
    requires 1 <= k && n < Pow10(k)
    ensures |Decimal(n)| <= k
    decreases k
  {
    if n >= 10 {
      assert k >= 2;
      DecimalFits(n / 10, k - 1);
    }
  }

  /** A number below 10^width fills its zero-padded field exactly. */
  lemma {:induction false} ZeroPadWidth(n: nat, width: nat)
    requires 1 <= width && n < Pow10(width)
    ensures |ZeroPad(n, width)| == width
    ensures ParseDecimal(ZeroPad(n, width)) == n
  {
    DecimalFits(n, width);
    ParseZeroPad(n, width);
  }

  const TagBufferSize: nat := 45
  const TagPrefix := "capturing IMG_"

  /** The capture tag text before `snprintf` cuts it to the buffer. */
  function TagText(now: DateTime): string {
    TagPrefix
    + ZeroPad(now.year as nat, 4) + ZeroPad(now.month as nat, 2) + ZeroPad(now.day as nat, 2)
    + "_"
    + ZeroPad(now.hour as nat + 1, 2) + ZeroPad(now.minute as nat, 2) + ZeroPad(now.second as nat, 2)
  }

  /** The log line of one capture: date, then the hour shifted by one, then minutes and seconds. */
  function CaptureTag(now: DateTime): string {
    Truncate(TagText(now), TagBufferSize)
  }

  /** The 45-byte buffer always holds the whole tag: even at the widest field values the
      clock can return (a 5-digit year, 3-digit byte fields) the text has at most 35 characters. */
  lemma CaptureTagNeverTruncated(now: DateTime)
    ensures CaptureTag(now) == TagText(now)
    ensures |CaptureTag(now)| <= 35
  {
    ZeroPadAtMost(now.year as nat, 4, 5);
    ZeroPadAtMost(now.month as nat, 2, 3);
    ZeroPadAtMost(now.day as nat, 2, 3);
    ZeroPadAtMost(now.hour as nat + 1, 2, 3);
    ZeroPadAtMost(now.minute as nat, 2, 3);
    ZeroPadAtMost(now.second as nat, 2, 3);
    assert |TagText(now)| <= 35;
  }

  lemma {:induction false} ZeroPadAtMost(n: nat, width: nat, k: nat)
    requires 1 <= width <= k && n < Pow10(k)
    ensures |ZeroPad(n, width)| <= k
  {
    DecimalFits(n, k);
  }

  /** Characters `from` to `to` of `text` are digits that read back as `value`. */
  predicate Field(text: string, from: nat, to: nat, value: nat) {
    from <= to <= |text| && AllDigits(text[from..to]) && ParseDecimal(text[from..to]) == value
  }

  /** For a calendar-sized reading the tag has the fixed layout `capturing IMG_YYYYMMDD_HHMMSS`,
      and every field reads back as the clock value, the hour as the clock hour plus one. */
  lemma {:induction false} CaptureTagLayout(now: DateTime)
    requires now.year < 10000 && now.month < 100 && now.day < 100
    requires now.hour < 99 && now.minute < 100 && now.second < 100
    ensures var tag := CaptureTag(now);
      && |tag| == 29 && tag[..14] == TagPrefix && tag[22] == '_'
      && Field(tag, 14, 18, now.year as nat)
      && Field(tag, 18, 20, now.month as nat)
      && Field(tag, 20, 22, now.day as nat)
      && Field(tag, 23, 25, now.hour as nat + 1)
      && Field(tag, 25, 27, now.minute as nat)
      && Field(tag, 27, 29, now.second as nat)
  {
    ZeroPadWidth(now.year as nat, 4);
    ZeroPadWidth(now.month as nat, 2);
    ZeroPadWidth(now.day as nat, 2);
    ZeroPadWidth(now.hour as nat + 1, 2);
    ZeroPadWidth(now.minute as nat, 2);
    ZeroPadWidth(now.second as nat, 2);
    CaptureTagNeverTruncated(now);
    TagFields(ZeroPad(now.year as nat, 4), ZeroPad(now.month as nat, 2), ZeroPad(now.day as nat, 2),
              ZeroPad(now.hour as nat + 1, 2), ZeroPad(now.minute as nat, 2), ZeroPad(now.second as nat, 2));
  }

  /** Where each field sits in a tag built from fields of width 4, 2, 2 and 2, 2, 2. */
  lemma TagFields(y: string, mo: string, d: string, h: string, mi: string, s: string)
    requires |y| == 4 && |mo| == |d| == |h| == |mi| == |s| == 2
    ensures var tag := TagPrefix + y + mo + d + "_" + h + mi + s;
      |tag| == 29 && tag[..14] == TagPrefix && tag[22] == '_' &&
      tag[14..18] == y && tag[18..20] == mo && tag[20..22] == d &&
      tag[23..25] == h && tag[25..27] == mi && tag[27..29] == s
  {
  }

  /** The sunset noted beside the clock setup (src/main.cpp:61), 20:58 on 2 July 2020, is
      logged as hour 21. */
  lemma CaptureTagExample()
    ensures CaptureTag(DateTime(2020, 7, 2, 20, 58, 0)) == "capturing IMG_20200702_215800"
  {
    var now := DateTime(2020, 7, 2, 20, 58, 0);
    Year2020();
    PadOneDigit(7);
    PadOneDigit(2);
    PadOneDigit(0);
    assert ZeroPad(21, 2) == "21" by { assert Decimal(21) == "21"; }
    assert ZeroPad(58, 2) == "58" by { assert Decimal(58) == "58"; }
    CaptureTagNeverTruncated(now);
    assert TagText(now) == TagPrefix + "2020" + "07" + "02" + "_" + "21" + "58" + "00";
    assert TagPrefix + "2020" + "07" + "02" + "_" + "21" + "58" + "00" == "capturing IMG_20200702_215800";
  }

  /** The last hour of the day is logged as 24, not wrapped to 00. */
  lemma CaptureTagLastHour()
    ensures CaptureTag(DateTime(2020, 7, 2, 23, 5, 9)) == "capturing IMG_20200702_240509"
  {
    var now := DateTime(2020, 7, 2, 23, 5, 9);
    Year2020();
    PadOneDigit(7);
    PadOneDigit(2);
    PadOneDigit(5);
    PadOneDigit(9);
    assert ZeroPad(24, 2) == "24" by { assert Decimal(24) == "24"; }
    CaptureTagNeverTruncated(now);
    assert TagText(now) == TagPrefix + "2020" + "07" + "02" + "_" + "24" + "05" + "09";
  }

  lemma Year2020()
    ensures ZeroPad(2020, 4) == "2020"
  {
    assert Decimal(2) == "2" && Decimal(20) == "20" && Decimal(202) == "202";
  }

  lemma {:induction false} PadOneDigit(n: nat)
    requires n < 10
    ensures ZeroPad(n, 2) == ['0', DigitChar(n)]
  {
    assert Zeros(1) == "0";
  }

  const LabelBufferSize: nat := 21
  const LabelPrefix := "Image number "

  /** `%i` reads the unsigned frame index as a 32-bit signed int. */
  function AsInt32(i: uint32): int {
    if i < 0x8000_0000 then i as int else i as int - 0x1_0000_0000
  }

  /** `%05i`: width 5 with zero padding; a minus sign takes one of the five places. */
  function Int05(v: int): string {
    if v >= 0 then ZeroPad(v, 5) else "-" + ZeroPad(-v, 4)
  }

  /** The `Image number %05i` line logged before each timelapse frame. */
  function FrameLabel(i: uint32): string {
    Truncate(LabelPrefix + Int05(AsInt32(i)), LabelBufferSize)
  }

  /** `line` is `Image number ` followed by the `%05i` field of `n`: digits that read back as
      `n`, five of them when `n` has at most five digits, and otherwise exactly its digits with
      no leading zero. */
  predicate LabelFor(line: string, n: nat) {
    && |line| == |LabelPrefix| + (if n < 100_000 then 5 else |Decimal(n)|)
    && line[..13] == LabelPrefix
    && Field(line, 13, |line|, n)
    && (n >= 100_000 ==> line[13] != '0')
  }

  /** Below ten million the 21-byte buffer holds the whole label. */
  lemma {:induction false} FrameLabelLayout(i: uint32)
    requires i < 10_000_000
    ensures LabelFor(FrameLabel(i), i as nat)
  {
    var n := i as nat;
    DecimalFits(n, 7);
    ParseZeroPad(n, 5);
    var text := LabelPrefix + ZeroPad(n, 5);
    assert Int05(AsInt32(i)) == ZeroPad(n, 5);
    assert FrameLabel(i) == text;
    assert text[13..|text|] == ZeroPad(n, 5);
    if i < 100_000 {
      ZeroPadWidth(n, 5);
    } else {
      DecimalExceeds(n, 5);
      assert ZeroPad(n, 5) == Decimal(n);
    }
  }

  /** A number of at least 10^k has more than k digits. */
  lemma {:induction false} DecimalExceeds(n: nat, k: nat)
    requires Pow10(k) <= n
    ensures |Decimal(n)| > k
    decreases k
  {
    if k > 0 {
      DecimalExceeds(n / 10, k - 1);
    }
  }

  /** Distinct frames below ten million get distinct labels. */
  lemma {:induction false} FrameLabelInjective(i: uint32, j: uint32)
    requires i < 10_000_000 && j < 10_000_000
    requires FrameLabel(i) == FrameLabel(j)
    ensures i == j
  {
    FrameLabelLayout(i);
    FrameLabelLayout(j);
  }

  lemma FrameLabelExample()
    ensures FrameLabel(0) == "Image number 00000"
    ensures FrameLabel(1799) == "Image number 01799"
  {
    PaddedExamples();
    assert Int05(AsInt32(0)) == "00000";
    assert Int05(AsInt32(1799)) == "01799";
  }

  lemma PaddedExamples()
    ensures ZeroPad(0, 5) == "00000"
    ensures ZeroPad(1799, 5) == "01799"
  {
    assert ZeroPad(0, 5) == Zeros(4) + "0";
    assert Decimal(17) == "17";
    assert Decimal(179) == Decimal(17) + "9";
    assert Decimal(1799) == Decimal(179) + "9";
    assert ZeroPad(1799, 5) == Zeros(1) + "1799";
  }

  const StopMessage := "stopped recoding of timelapse"

  /** The text of a log line. */
  function Text(note: Note): string {
    match note
    case FrameNumber(i) => FrameLabel(i)
    case Capturing(now) => CaptureTag(now)
    case TimelapseStopped => StopMessage
    case ButtonCapture => "Capture image via BUTTON press"
    case CaptureDone => "Image Capture done"
    case ButtonTimelapse => "Capture timelapse via BUTTON press"
  }

  /** The log line of a frame number below ten million is its `Image number %05i` label. */
  lemma FrameNumberText(i: uint32)
    requires i < 10_000_000
    ensures Text(FrameNumber(i)) == FrameLabel(i)
    ensures LabelFor(Text(FrameNumber(i)), i as nat)
  {
    FrameLabelLayout(i);
  }
}
