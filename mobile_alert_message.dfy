/** The mobile AlertMessage component: a cursor over the alert list that
    each fade-in/fade-out cycle advances. The cursor is never reset when the
    list changes, and an empty list schedules no cycle at all. */
module MobileAlertMessage {
  import opened Rotation

  class Rotator {
    var alertMessages: seq<string>
    var currentIndex: nat

    /** Mounting: the cursor starts at 0. */
    constructor (messages: seq<string>)
      ensures alertMessages == messages && currentIndex == 0
    {
      alertMessages := messages;
      currentIndex := 0;
    }

    /** The end of one animation cycle. With an empty list no cycle runs, so
        nothing changes; otherwise the cursor lands inside the list, even when
        it pointed past the end before. */
    method Advance()
      modifies this
      ensures alertMessages == old(alertMessages)
      ensures |alertMessages| == 0 ==> currentIndex == old(currentIndex)
      ensures |alertMessages| > 0 ==> currentIndex == Next(old(currentIndex), |alertMessages|)
      ensures |alertMessages| > 0 ==> currentIndex < |alertMessages|
    {
      if |alertMessages| != 0 {
        currentIndex := (currentIndex + 1) % |alertMessages|;
      }
    }

    /** A new list from the parent; the cursor is kept as it is. */
    method SetMessages(messages: seq<string>)
      modifies this
      ensures alertMessages == messages && currentIndex == old(currentIndex)
    {
      alertMessages := messages;
    }

    /** The badge: "No health issues" for an empty list, else the alert under
        the cursor, which is missing while the cursor is out of range. */
    function Display(): (shown: Shown)
      reads this
      ensures shown == NoHealthIssues <==> |alertMessages| == 0
      ensures shown == Blank <==> 0 < |alertMessages| <= currentIndex
      ensures currentIndex < |alertMessages| ==> shown == Alert(alertMessages[currentIndex])
    {
      if |alertMessages| == 0 then NoHealthIssues
      else if currentIndex < |alertMessages| then Alert(alertMessages[currentIndex])
      else Blank
    }
  }

  /** A list that shrinks under the cursor leaves the badge blank until the
      next cycle, which brings it back inside the list. */
  method ShrinkScenario(a: string, b: string, c: string) returns (beforeShrink: Shown, afterShrink: Shown, afterTick: Shown)
    ensures beforeShrink == Alert(c) && afterShrink == Blank && afterTick == Alert(b)
  {
    var r := new Rotator([a, b, c]);
    r.Advance();
    r.Advance();
    beforeShrink := r.Display();
    r.SetMessages([a, b]);
    afterShrink := r.Display();
    r.Advance();
    afterTick := r.Display();
  }
}
