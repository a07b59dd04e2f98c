/**
  The step-count readout of the watchface (`display_step_count`): today's
  step count becomes a short text ("1.9k" from 1000 steps on, the plain
  number below that), and the comparison with the historical average for
  this time of day picks the text colour and an emoji. The emoji is
  written to its own buffer and never put on screen.
 */
module StepReadout {
  import opened CFormat

  /** Capacity of `s_current_steps_buffer`, terminator included. */
  const StepsBufferSize: nat := 16
  /** Capacity of `s_emoji`, terminator included. */
  const EmojiBufferSize: nat := 5

  datatype Option<T> = None | Some(value: T)

  /** The two text colours of the step layer. */
  datatype Colour = IslamicGreen | VividCerulean

  /** The emoji stored beside the readout: ahead of the average or behind it. */
  datatype Mood = Relieved | PileOfPoo {

    /** The Unicode scalar value of the emoji. */
    function Glyph(): char {
      match this
      case Relieved => '\U{1F60C}'
      case PileOfPoo => '\U{1F4A9}'
    }

    /** The bytes `snprintf` writes into `s_emoji`: the UTF-8 encoding of the glyph, which fits with its terminator. */
    function Utf8(): (b: seq<bv8>)
      ensures |b| + 1 <= EmojiBufferSize
      ensures IsFourByteUtf8(b) && DecodeFourByteUtf8(b) == Glyph() as int
    {
      match this
      case Relieved => [0xF0, 0x9F, 0x98, 0x8C]
      case PileOfPoo => [0xF0, 0x9F, 0x92, 0xA9]
    }
  }

  /** A lead byte `11110xxx` followed by three continuation bytes `10xxxxxx`. */
  predicate IsFourByteUtf8(b: seq<bv8>) {
    |b| == 4 && b[0] & 0xF8 == 0xF0
    && b[1] & 0xC0 == 0x80 && b[2] & 0xC0 == 0x80 && b[3] & 0xC0 == 0x80
  }

  /** The code point a four-byte UTF-8 sequence stands for (the reference decoder). */
  function DecodeFourByteUtf8(b: seq<bv8>): int
    requires |b| == 4
  {
    (b[0] & 0x07) as int * 0x40000 + (b[1] & 0x3F) as int * 0x1000
    + (b[2] & 0x3F) as int * 0x40 + (b[3] & 0x3F) as int
  }

  /** What one call of the readout produces: the buffer text, the layer colour and the stored emoji. */
  datatype Readout = Readout(text: string, colour: Colour, mood: Mood)

  /** The text `display_step_count` formats, before `snprintf` bounds it by the buffer. */
  function Formatted(count: Int32): (r: string)
    ensures |r| >= 1 && (r[|r| - 1] == 'k' <==> count >= 1000)
  {
    var thousands := CDiv(count, 1000);
    var decimalPlaces := CDiv(CRem(count, 1000), 100);
    var hundreds := CRem(count, 1000);
    if thousands > 0 then
      FormatInt(thousands) + "." + FormatIntZeroPad(decimalPlaces, 1) + "k"
    else
      FormatInt(hundreds)
  }

  /** The contents of `s_current_steps_buffer` after the readout is drawn. */
  function StepText(count: Int32): (s: string)
    ensures |s| < StepsBufferSize
  {
    Snprintf(StepsBufferSize, Formatted(count))
  }

  /** The text colour: green when today is on or ahead of the average, blue when behind. */
  function ColourFor(count: Int32, average: Int32): (c: Colour)
    ensures c == IslamicGreen <==> count >= average
    ensures c == VividCerulean <==> count < average
  {
    if count >= average then IslamicGreen else VividCerulean
  }

  /** The emoji, on the same split as the colour. */
  function MoodFor(count: Int32, average: Int32): (m: Mood)
    ensures m == Relieved <==> count >= average
    ensures m == PileOfPoo <==> count < average
  {
    if count >= average then Relieved else PileOfPoo
  }

  /** `display_step_count` as a value: the text depends on the count alone, colour and emoji on the comparison. */
  function Render(count: Int32, average: Int32): (r: Readout)
    ensures r.text == StepText(count)
    ensures r.colour == IslamicGreen <==> count >= average
    ensures r.mood == Relieved <==> count >= average
  {
    Readout(StepText(count), ColourFor(count, average), MoodFor(count, average))
  }

  /** From 1000 steps on: whole thousands, a point, the truncated tenths digit, and `k`. */
  lemma StepTextThousands(count: Int32)
    requires count >= 1000
    ensures (count % 1000) / 100 < 10
    ensures StepText(count) == Decimal(count / 1000) + "." + [DigitChar((count % 1000) / 100)] + "k"
  {
    CDivRemNonNegative(count, 1000);
    CDivRemNonNegative(count % 1000, 100);
    var d := (count % 1000) / 100;
    assert FormatIntZeroPad(d, 1) == Decimal(d) == [DigitChar(d)];
    FormattedFits(count);
  }

  /** Below 1000 steps: exactly the plain decimal count, no suffix. */
  lemma StepTextPlain(count: Int32)
    requires 0 <= count < 1000
    ensures StepText(count) == Decimal(count)
  {
    CDivRemNonNegative(count, 1000);
    FormattedFits(count);
  }

  /**
    A negative count (which the health service does not report) takes the
    plain branch, and C's remainder drops its thousands: -1500 shows "-500".
   */
  lemma StepTextNegative(count: Int32)
    requires count < 0
    ensures -1000 < CRem(count, 1000) <= 0
    ensures StepText(count) == FormatInt(CRem(count, 1000))
  {
    FormattedFits(count);
  }

  /** The formatted text never exceeds ten characters, so the 16-byte buffer never truncates it. */
  lemma FormattedFits(count: Int32)
    ensures |Formatted(count)| <= 10
    ensures StepText(count) == Formatted(count)
  {
    var thousands := CDiv(count, 1000);
    var rem := CRem(count, 1000);
    if thousands > 0 {
      CDivRemNonNegative(count, 1000);
      assert thousands <= 2147483 < 10000000 == Pow10(7);
      DecimalLength(thousands, 7);
      var d := CDiv(rem, 100);
      assert 0 <= d < 10;
      assert |FormatIntZeroPad(d, 1)| == 1;
    } else if rem < 0 {
      assert -rem < 1000 == Pow10(3);
      DecimalLength(-rem, 3);
    } else {
      assert rem < 1000 == Pow10(3);
      DecimalLength(rem, 3);
    }
  }

  /** The longest readout is the one for the largest `int`. */
  lemma LongestText(count: Int32)
    ensures StepText(Int32Max) == "2147483.6k"
    ensures |StepText(count)| <= |StepText(Int32Max)|
  {
    FormattedFits(count);
    MaxText();
  }

  lemma MaxText()
    ensures StepText(Int32Max) == "2147483.6k"
  {
    StepTextThousands(Int32Max);
    MaxThousands();
  }

  lemma MaxThousands()
    ensures Decimal(2147483) == "2147483"
  {
    assert Decimal(214) == "214" by {
      assert Decimal(2) == "2";
      assert Decimal(21) == "21";
    }
    assert Decimal(214748) == "214748" by {
      assert Decimal(2147) == "2147";
      assert Decimal(21474) == "21474";
    }
  }

  /**
    The number a reader of the watch sees in a readout text: "d...d.tk"
    stands for d...d thousands and t hundreds, a plain digit string for
    itself. Anything else is not a non-negative step count.
   */
  function ReadSteps(t: string): Option<nat> {
    var n := |t|;
    if n >= 4 && t[n - 1] == 'k' && t[n - 3] == '.' && AllDigits(t[..n - 3]) && IsDigit(t[n - 2]) then
      Some(1000 * ParseDigits(t[..n - 3]) + 100 * DigitValue(t[n - 2]))
    else if n >= 1 && AllDigits(t) then
      Some(ParseDigits(t))
    else
      None
  }

  /** The readout shows the count truncated (never rounded) to whole hundreds from 1000 on, exactly below. */
  lemma ReadBack(count: Int32)
    requires count >= 0
    ensures ReadSteps(StepText(count)) == Some(if count >= 1000 then count - count % 100 else count)
  {
    if count >= 1000 {
      ReadBackThousands(count);
    } else {
      StepTextPlain(count);
      ReadPlainForm(Decimal(count));
      ParseDecimal(count);
    }
  }

  lemma ReadBackThousands(count: Int32)
    requires count >= 1000
    ensures ReadSteps(StepText(count)) == Some(count - count % 100)
  {
    StepTextThousands(count);
    var q, d := count / 1000, (count % 1000) / 100;
    ReadThousandsForm(Decimal(q), DigitChar(d));
    ParseDecimal(q);
    HundredsSplit(count);
  }

  lemma ReadThousandsForm(whole: string, tenths: char)
    requires AllDigits(whole) && |whole| >= 1 && IsDigit(tenths)
    ensures ReadSteps(whole + "." + [tenths] + "k") == Some(1000 * ParseDigits(whole) + 100 * DigitValue(tenths))
  {
    var t := whole + "." + [tenths] + "k";
    assert t[..|t| - 3] == whole;
  }

  lemma ReadPlainForm(digits: string)
    requires AllDigits(digits) && |digits| >= 1
    ensures ReadSteps(digits) == Some(ParseDigits(digits))
  {
    assert !IsDigit('k');
  }

  /** Thousands and the tenths digit together are the count less its last two digits. */
  lemma HundredsSplit(c: nat)
    ensures 1000 * (c / 1000) + 100 * ((c % 1000) / 100) == c - c % 100
  {
  }

  /** What the readout shows is at most the count and less than 100 below it; below 1000 it is the count. */
  lemma ReadBackTruncates(count: Int32)
    requires count >= 0
    ensures ReadSteps(StepText(count)).Some?
    ensures var shown := ReadSteps(StepText(count)).value;
      shown <= count < shown + 100 && (count < 1000 ==> shown == count)
  {
    ReadBack(count);
  }

  /** Truncation, not rounding: 1999 steps show as "1.9k", not "2.0k". */
  lemma TruncatedNotRounded()
    ensures StepText(1999) == "1.9k"
  {
    StepTextThousands(1999);
    assert Decimal(1) == "1" && DigitChar(9) == '9';
  }

  /** The first thousand shows its zero tenths digit. */
  lemma FirstThousand()
    ensures StepText(1000) == "1.0k"
    ensures StepText(999) == Decimal(999)
  {
    StepTextThousands(1000);
    assert Decimal(1) == "1" && DigitChar(0) == '0';
    StepTextPlain(999);
  }

  /** Every character of the readout is a digit, a minus sign, a point or `k`. */
  lemma TextAlphabet(count: Int32)
    ensures forall i :: 0 <= i < |StepText(count)| ==>
      IsDigit(StepText(count)[i]) || StepText(count)[i] in "-.k"
  {
    FormattedFits(count);
    var thousands := CDiv(count, 1000);
    if thousands > 0 {
      StepTextThousands(count);
    }
  }

  /** The average changes only colour and emoji, never the text; the emoji never appears in the text. */
  lemma AverageOnlyColours(count: Int32, average: Int32, other: Int32)
    ensures Render(count, average).text == Render(count, other).text
    ensures Render(count, average).mood.Glyph() !in Render(count, average).text
  {
    TextAlphabet(count);
  }
}
