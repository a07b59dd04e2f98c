# RebellionWatchface step readout, modelled in Dafny

The watchface shows a clock, a date, a background image and today's step
count. This project models the one part with behaviour of its own: the
step-count readout in `src/c/main.c`.

- **Readout** (`display_step_count`). From 1000 steps on, the count is shown
  as whole thousands, a point, the tenths digit and `k` ("1.9k"). The tenths
  digit is truncated, not rounded. Below 1000 the count is shown as a plain
  number. The text colour is green when today's count is at least the
  historical average for this time of day, blue otherwise. An emoji is
  chosen on the same split and written to its own buffer. It is never shown.
- **Health events** (`health_handler` with `get_step_goal`, `get_step_count`
  and `get_step_average`). A significant update refreshes the cached goal.
  Every event except a sleep update refreshes the cached count and average
  and redraws the readout. A sleep update changes nothing.

Files:

- `c_format.dfy` (module `CFormat`): the C semantics the readout relies on.
  It has 32-bit `int`, C's truncating `/` and `%`, `%d` and `%0<w>d`, and
  `snprintf` into a bounded buffer. It also has a decimal reader
  (`ParseDigits`) as the reference partner of `%d`.
- `step_readout.dfy` (module `StepReadout`): the readout as pure functions
  from (count, average) to (text, colour, emoji), and its properties.
- `health_handler.dfy` (module `HealthHandler`): class `StepDisplay` with
  the cached globals and the two static buffers as fields. Its methods are
  the getters, the readout and the event handler. The handler's `Valid()`
  invariant says that once the readout has been drawn it is exactly the
  readout of the cached count and average.

The health service's answers are inputs (`HealthSamples`): the averaged
daily total, today's sum and the averaged sum up to now.

Negative counts are covered, using C's truncating division. The health
service does not report them. Such a count takes the plain branch and C's
remainder drops its thousands: -1500 shows "-500" (`StepTextNegative`).

## Model

| member | source | states |
|---|---|---|
| CFormat.CDiv | src/c/main.c:42 | C's `/` by a positive divisor truncates toward zero: the quotient's multiple lies between 0 and the dividend, within one divisor of it |
| CFormat.CRem | src/c/main.c:43-44 | C's `%`: dividend = quotient * divisor + remainder; the remainder has the dividend's sign and is smaller than the divisor |
| CFormat.Decimal | src/c/main.c:59-60 | `%d` of a non-negative number: at least one character, all digits, no leading zero, one digit exactly below 10 |
| CFormat.ParseDecimal | src/c/main.c:59-60 | reading back the digits `%d` printed gives the number printed |
| CFormat.DecimalInjective | src/c/main.c:59-60 | two different counts never print the same digits |
| CFormat.DecimalLength | src/c/main.c:56-60 | a number below 10^k prints in at most k digits |
| CFormat.FormatInt | src/c/main.c:56-60 | `%d` is never empty and starts with a minus sign exactly when the number is negative |
| CFormat.FormatIntRoundTrip | src/c/main.c:56-60 | a signed decimal reader reads back exactly the number `%d` printed, and its digits have no leading zero unless the number is 0 |
| CFormat.FormatIntZeroPad | src/c/main.c:56-57 | `%0<w>d` is exactly w characters when `%d` is shorter, otherwise plain `%d`; it keeps the sign of `%d` |
| CFormat.FormatIntZeroPadValue | src/c/main.c:56-57 | the zero-padded text still reads back as the number |
| CFormat.ParseLeadingZeros | src/c/main.c:56-57 | leading zeros do not change the value a digit string reads as |
| CFormat.Snprintf | src/c/main.c:56-60 | `snprintf` keeps a prefix of the formatted text: all of it when it fits, otherwise exactly the buffer size minus one characters |
| StepReadout.Mood.Utf8 | src/c/main.c:45-53 | the emoji bytes are one well-formed four-byte UTF-8 sequence that decodes to the emoji's code point and fits `s_emoji` with its terminator |
| StepReadout.Formatted | src/c/main.c:42-60 | the text before `snprintf` is never empty and ends in `k` exactly when the count is at least 1000; `FormattedFits` bounds it by 10 characters |
| StepReadout.StepText | src/c/main.c:55-61 | the steps buffer always holds fewer than 16 characters |
| StepReadout.ColourFor | src/c/main.c:47-53 | green exactly when count >= average (ties go to green), blue exactly when count < average |
| StepReadout.MoodFor | src/c/main.c:47-53 | the relieved face exactly when count >= average, the pile of poo exactly when count < average |
| StepReadout.Render | src/c/main.c:41-64 | the readout's text is the steps text of the count; its colour is green and its emoji the relieved face exactly when count >= average |
| StepReadout.StepTextThousands | src/c/main.c:42-57 | from 1000 steps: decimal of count/1000, then `.`, then the single digit (count%1000)/100, then `k` |
| StepReadout.StepTextPlain | src/c/main.c:44-60 | for 0 <= count < 1000 the text is exactly the plain decimal of the count, with no suffix |
| StepReadout.StepTextNegative | src/c/main.c:42-60 | a negative count shows `%d` of its C remainder by 1000, which lies in (-1000, 0] |
| StepReadout.FormattedFits | src/c/main.c:55-61 | for every 32-bit count the formatted text has at most 10 characters, so the 16-byte buffer never truncates it |
| StepReadout.LongestText | src/c/main.c:55-61 | the largest `int` shows "2147483.6k", and no count shows a longer text |
| StepReadout.ReadBack | src/c/main.c:42-60 | reading the text back gives the count with its last two digits dropped from 1000 on, and the count itself below 1000 |
| StepReadout.ReadBackTruncates | src/c/main.c:43-57 | the number shown is at most the count and less than 100 below it, and equals the count below 1000: truncation, never rounding up |
| StepReadout.TruncatedNotRounded | src/c/main.c:43-57 | 1999 steps show "1.9k" |
| StepReadout.FirstThousand | src/c/main.c:55-60 | 1000 steps show "1.0k", 999 steps the plain decimal of 999 |
| StepReadout.TextAlphabet | src/c/main.c:55-61 | every character of the text is a digit, `-`, `.` or `k` |
| StepReadout.AverageOnlyColours | src/c/main.c:45-63 | the average never changes the text, and the emoji never appears in the text |
| HealthHandler.StepDisplay.constructor | src/c/main.c:10-11 | goal, count and average start at 0, both buffers empty, no colour set, nothing shown |
| HealthHandler.StepDisplay.RefreshGoal | src/c/main.c:21-26 | the cached goal becomes the service's averaged daily total; nothing else changes |
| HealthHandler.StepDisplay.RefreshCount | src/c/main.c:29-31 | the cached count becomes today's sum; nothing else changes |
| HealthHandler.StepDisplay.RefreshAverage | src/c/main.c:34-39 | the cached average becomes the averaged sum up to now; nothing else changes |
| HealthHandler.StepDisplay.DisplayStepCount | src/c/main.c:41-64 | buffer, emoji and colour become the readout of the cached count and average; the cached values do not change |
| HealthHandler.StepDisplay.HandleHealthEvent | src/c/main.c:66-75 | sleep update: nothing changes and nothing is redrawn; significant update: goal refreshed; every non-sleep event: count and average refreshed and their readout drawn; otherwise the goal is kept |

## Left out

- Window, layer and bitmap creation and destruction, fonts, layout rectangles and round/rectangular geometry (src/c/main.c:102-168): toolkit calls with no behaviour of their own.
- The health-service queries and `step_data_is_available` (src/c/main.c:14-39): closed platform calls. Their answers are the `HealthSamples` inputs, so the subscription gate is not modelled.
- Clock and date rendering through `localtime` and `strftime` (src/c/main.c:78-96): libc formatting over the device clock.
- Tick subscription, the event loop, `init` and `deinit` (src/c/main.c:98-100, 171-200): event plumbing.
- The step layer's own state: the model keeps only its text colour. The layer points at the steps buffer, so the buffer is the shown text.
- The steps buffer is modelled by its string contents rather than as a 16-byte array. `Snprintf` models the cut to 15 characters, and `FormattedFits` proves the cut never happens.
- HealthEvent lists the platform's event kinds. The handler only tells significant updates and sleep updates apart from the rest.
