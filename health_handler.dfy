/**
  The health-event callback of the watchface (`health_handler`) and the
  state it keeps: the cached daily goal, today's count and the average for
  this time of day, plus the steps buffer, the emoji buffer and the text
  colour of the step layer. The health service's answers at the moment of
  the event are passed in as samples.
 */
module HealthHandler {
  import opened CFormat
  import opened StepReadout

  /** The kinds of event the health service delivers to the callback. */
  datatype HealthEvent =
    | SignificantUpdate
    | MovementUpdate
    | SleepUpdate
    | MetricAlert
    | HeartRateUpdate

  /**
    What the health service would answer if asked now: the averaged daily
    total (the goal), the sum for today, and the averaged sum from the start
    of the day until now.
   */
  datatype HealthSamples = HealthSamples(dailyGoal: Int32, today: Int32, averageSoFar: Int32)

  class StepDisplay {
    var stepGoal: Int32
    var stepCount: Int32
    var stepAverage: Int32
    /** Contents of the steps buffer, terminator excluded. */
    var stepsBuffer: string
    /** Bytes of the emoji buffer, terminator excluded. */
    var emoji: seq<bv8>
    /** Text colour of the step layer; None until the first readout sets one. */
    var textColour: Option<Colour>

    /** Once drawn, the step layer shows exactly the readout of the cached count and average. */
    ghost predicate Valid()
      reads this
    {
      match textColour
      case None => stepsBuffer == [] && emoji == []
      case Some(c) =>
        stepsBuffer == StepText(stepCount)
        && c == ColourFor(stepCount, stepAverage)
        && emoji == MoodFor(stepCount, stepAverage).Utf8()
    }

    /** What the step layer currently shows, if anything. */
    ghost function Screen(): Option<Readout>
      reads this
      requires Valid()
    {
      match textColour
      case None => None
      case Some(_) => Some(Render(stepCount, stepAverage))
    }

    /** The zero-initialised globals and empty static buffers at start-up. */
    constructor ()
      ensures Valid() && Screen() == None
      ensures stepGoal == 0 && stepCount == 0 && stepAverage == 0
      ensures stepsBuffer == [] && emoji == [] && textColour == None
    {
      stepGoal, stepCount, stepAverage := 0, 0, 0;
      stepsBuffer, emoji, textColour := [], [], None;
    }

    // The getters below only cache a sample; as in the C code, Valid() is
    // broken between them and the readout and holds again at the boundary
    // of HandleHealthEvent.

    /** `get_step_goal`: cache the averaged daily total. */
    method RefreshGoal(sample: Int32)
      modifies this`stepGoal
      ensures stepGoal == sample
    {
      stepGoal := sample;
    }

    /** `get_step_count`: cache today's sum. */
    method RefreshCount(sample: Int32)
      modifies this`stepCount
      ensures stepCount == sample
    {
      stepCount := sample;
    }

    /** `get_step_average`: cache the average from the start of the day until now. */
    method RefreshAverage(sample: Int32)
      modifies this`stepAverage
      ensures stepAverage == sample
    {
      stepAverage := sample;
    }

    /** `display_step_count`: colour and emoji from the comparison, then the text from the count. */
    method DisplayStepCount() returns (r: Readout)
      modifies this`stepsBuffer, this`emoji, this`textColour
      ensures Valid() && Screen() == Some(r)
      ensures r == Render(stepCount, stepAverage)
      ensures stepsBuffer == r.text && textColour == Some(r.colour) && emoji == r.mood.Utf8()
    {
      var thousands := CDiv(stepCount, 1000);
      var decimalPlaces := CDiv(CRem(stepCount, 1000), 100);
      var hundreds := CRem(stepCount, 1000);
      var mood;
      if stepCount >= stepAverage {
        textColour := Some(IslamicGreen);
        mood := Relieved;
      } else {
        textColour := Some(VividCerulean);
        mood := PileOfPoo;
      }
      emoji := mood.Utf8();
      if thousands > 0 {
        stepsBuffer := Snprintf(StepsBufferSize,
          FormatInt(thousands) + "." + FormatIntZeroPad(decimalPlaces, 1) + "k");
      } else {
        stepsBuffer := Snprintf(StepsBufferSize, FormatInt(hundreds));
      }
      r := Readout(stepsBuffer, textColour.value, mood);
    }

    /**
      `health_handler`: a significant update also refreshes the goal; every
      event but a sleep update refreshes count and average and redraws.
      The result is the readout drawn, None when nothing is redrawn.
     */
    method HandleHealthEvent(event: HealthEvent, samples: HealthSamples) returns (redrawn: Option<Readout>)
      requires Valid()
      modifies this
      ensures Valid()
      ensures event == SleepUpdate ==> redrawn == None && unchanged(this)
      ensures event == SignificantUpdate ==> stepGoal == samples.dailyGoal
      ensures event != SignificantUpdate ==> stepGoal == old(stepGoal)
      ensures event != SleepUpdate ==>
        && stepCount == samples.today
        && stepAverage == samples.averageSoFar
        && redrawn == Some(Render(samples.today, samples.averageSoFar))
        && Screen() == redrawn
    {
      if event == SleepUpdate {
        redrawn := None;
      } else {
        if event == SignificantUpdate {
          RefreshGoal(samples.dailyGoal);
        }
        RefreshCount(samples.today);
        RefreshAverage(samples.averageSoFar);
        var r := DisplayStepCount();
        redrawn := Some(r);
      }
    }
  }
}
