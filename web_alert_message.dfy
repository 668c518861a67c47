/** The web AlertMessage component: a cursor that a one-second interval
    advances while the list holds more than one alert, and that is reset to
    0 whenever the list it receives holds at most one. */
module WebAlertMessage {
  import opened Rotation

  class Rotator {
    var alertMessages: seq<string>
    var current: nat

    /** A list of at most one alert always has its cursor at 0. */
    ghost predicate Valid()
      reads this
    {
      |alertMessages| <= 1 ==> current == 0
    }

    /** Mounting: the cursor starts at 0. */
    constructor (messages: seq<string>)
      ensures Valid()
      ensures alertMessages == messages && current == 0
    {
      alertMessages := messages;
      current := 0;
    }

    /** One interval tick. The interval only runs for more than one alert;
        then the cursor lands inside the list. */
    method Advance()
      requires Valid()
      modifies this
      ensures Valid()
      ensures alertMessages == old(alertMessages)
      ensures |alertMessages| <= 1 ==> current == old(current)
      ensures |alertMessages| > 1 ==> current == Next(old(current), |alertMessages|)
      ensures |alertMessages| > 1 ==> current < |alertMessages|
    {
      if |alertMessages| > 1 {
        current := (current + 1) % |alertMessages|;
      }
    }

    /** A new list from the parent: the cursor is reset to 0 when the list
        holds at most one alert, and kept otherwise. */
    method SetMessages(messages: seq<string>)
      requires Valid()
      modifies this
      ensures Valid()
      ensures alertMessages == messages
      ensures current == if |messages| <= 1 then 0 else old(current)
    {
      alertMessages := messages;
      if |messages| <= 1 {
        current := 0;
      }
    }

    /** The badge: "No health issues" for an empty list, else the alert under
        the cursor, which is missing while the cursor is out of range. A
        single alert is always shown. */
    function Display(): (shown: Shown)
      requires Valid()
      reads this
      ensures shown == NoHealthIssues <==> |alertMessages| == 0
      ensures |alertMessages| == 1 ==> shown == Alert(alertMessages[0])
      ensures shown == Blank <==> 0 < |alertMessages| <= current
      ensures current < |alertMessages| ==> shown == Alert(alertMessages[current])
    {
      if |alertMessages| == 0 then NoHealthIssues
      else if current < |alertMessages| then Alert(alertMessages[current])
      else Blank
    }
  }

  /** Dropping to one alert resets the cursor; a longer list that shrinks
      under the cursor leaves the badge blank until the next tick. */
  method ResetScenario(a: string, b: string, c: string) returns (beforeShrink: Shown, afterShrink: Shown, afterTick: Shown, single: Shown)
    ensures beforeShrink == Alert(c) && afterShrink == Blank && afterTick == Alert(b)
    ensures single == Alert(c)
  {
    var r := new Rotator([a, b, c]);
    r.Advance();
    r.Advance();
    beforeShrink := r.Display();
    r.SetMessages([a, b]);
    afterShrink := r.Display();
    r.Advance();
    afterTick := r.Display();
    r.SetMessages([c]);
    single := r.Display();
  }
}
