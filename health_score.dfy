/** The health score engine: 100 minus fixed penalties for vitals outside
    their thresholds, clamped at 0, rounded, and banded into three colours. */
module HealthScore {
  import opened Telemetry

  /** The severity colours, with the hexadecimal codes the dashboards paint. */
  datatype Color = Red | Amber | Green
  {
    function Hex(): string
    {
      match this
      case Red => "#dc143c"
      case Amber => "#e67e22"
      case Green => "#27ae60"
    }

    /** Severity order: Green below Amber below Red. */
    function Rank(): nat
    {
      match this
      case Green => 0
      case Amber => 1
      case Red => 2
    }
  }

  datatype Health = Health(score: int, color: Color)

  /** The five checked vitals. */
  datatype Vital = HeartRate | SpO2 | BodyTemp | RoomTemp | Humidity

  /** `x < t` in JavaScript: false when x is undefined or NaN. */
  predicate Below(x: Option<real>, t: real)
  {
    x.Some? && x.value < t
  }

  /** `x > t` in JavaScript: false when x is undefined or NaN. */
  predicate Above(x: Option<real>, t: real)
  {
    x.Some? && x.value > t
  }

  /** The field of the record that holds a vital. */
  function Reading(s: Snapshot, f: Vital): Option<real>
  {
    match f
    case HeartRate => s.heartRate
    case SpO2 => s.spo2
    case BodyTemp => s.bodyTemp
    case RoomTemp => s.roomTemp
    case Humidity => s.humidity
  }

  /** The threshold check of each vital. */
  predicate Violated(s: Snapshot, f: Vital)
  {
    var x := Reading(s, f);
    match f
    case HeartRate => Below(x, 40.0) || Above(x, 100.0)
    case SpO2 => Below(x, 95.0)
    case BodyTemp => Above(x, 37.2)
    case RoomTemp => Below(x, 18.0) || Above(x, 35.0)
    case Humidity => Below(x, 20.0) || Above(x, 80.0)
  }

  /** What a violated check costs. */
  function Weight(f: Vital): nat
  {
    match f
    case HeartRate => 10
    case SpO2 => 20
    case BodyTemp => 10
    case RoomTemp => 10
    case Humidity => 5
  }

  function Penalty(s: Snapshot, f: Vital): nat
  {
    if Violated(s, f) then Weight(f) else 0
  }

  /** Sum of the penalties of the five checks; they stack. */
  function TotalPenalty(s: Snapshot): nat
  {
    Penalty(s, HeartRate) + Penalty(s, SpO2) + Penalty(s, BodyTemp)
      + Penalty(s, RoomTemp) + Penalty(s, Humidity)
  }

  /** `Math.round`: the nearest integer, halves rounded up. */
  function Round(x: real): int
  {
    (x + 0.5).Floor
  }

  /** Colour banding of a score; the 59/60 and 79/80 boundaries are exact. */
  function Band(score: int): (c: Color)
    ensures c == Red <==> score < 60
    ensures c == Amber <==> 60 <= score < 80
    ensures c == Green <==> 80 <= score
  {
    if score < 60 then Red
    else if score < 80 then Amber
    else Green
  }

  /** calculateHealthScore. The clamp at 0 and the rounding never change the
      running total: it is an integer and at most 55 is subtracted. */
  function CalculateHealthScore(s: Snapshot): (h: Health)
    ensures 45 <= h.score <= 100
    ensures h.score == 100 - TotalPenalty(s)
    ensures h.color == Band(h.score)
  {
    var running := 100 - TotalPenalty(s);
    var score := Max(Round(running as real), 0);
    Health(score, Band(score))
  }

  function Max(a: int, b: int): int
  {
    if a < b then b else a
  }

  /** A failed check always costs at least its weight in the final score; the
      no-reading SpO2 sentinel fails the SpO2 check. */
  lemma FailedCheckCostsWeight(s: Snapshot, f: Vital)
    ensures Violated(s, f) ==> CalculateHealthScore(s).score <= 100 - Weight(f)
    ensures s.spo2 == Some(NoReading) ==> Penalty(s, SpO2) == 20
  {
  }

  /** The boundary values of every check incur nothing; one step beyond
      incurs the full penalty. */
  lemma ThresholdBoundaries(s: Snapshot)
    ensures s.heartRate == Some(40.0) || s.heartRate == Some(100.0) ==> Penalty(s, HeartRate) == 0
    ensures s.heartRate == Some(39.0) || s.heartRate == Some(101.0) ==> Penalty(s, HeartRate) == 10
    ensures s.spo2 == Some(95.0) ==> Penalty(s, SpO2) == 0
    ensures s.spo2 == Some(94.0) ==> Penalty(s, SpO2) == 20
    ensures s.bodyTemp == Some(37.2) ==> Penalty(s, BodyTemp) == 0
    ensures s.bodyTemp == Some(37.3) ==> Penalty(s, BodyTemp) == 10
    ensures s.roomTemp == Some(18.0) || s.roomTemp == Some(35.0) ==> Penalty(s, RoomTemp) == 0
    ensures s.humidity == Some(20.0) || s.humidity == Some(80.0) ==> Penalty(s, Humidity) == 0
  {
  }

  /** A missing or NaN vital never costs anything: a record without any of
      the five vitals scores a green 100. */
  lemma AbsentFieldsNeverPenalise(s: Snapshot, f: Vital)
    ensures Reading(s, f) == None ==> Penalty(s, f) == 0
    ensures s.heartRate == None && s.spo2 == None && s.bodyTemp == None
            && s.roomTemp == None && s.humidity == None
            ==> CalculateHealthScore(s) == Health(100, Green)
  {
  }

  /** All five checks failing gives the lowest reachable score, 45, red. */
  lemma AllViolations(s: Snapshot)
    requires forall f :: Violated(s, f)
    ensures CalculateHealthScore(s) == Health(45, Red)
  {
    assert Violated(s, HeartRate) && Violated(s, SpO2) && Violated(s, BodyTemp);
    assert Violated(s, RoomTemp) && Violated(s, Humidity);
  }

  /** The colour code returned with the score: crimson below 60, orange
      from 60 below 80, green from 80 on. */
  lemma ColourCodes(s: Snapshot)
    ensures var h := CalculateHealthScore(s);
      (h.score < 60 ==> h.color.Hex() == "#dc143c")
      && (60 <= h.score < 80 ==> h.color.Hex() == "#e67e22")
      && (80 <= h.score ==> h.color.Hex() == "#27ae60")
  {
  }

  /** Worked example: every vital out of range (30 bpm, 90 %, 38 C, a
      40 C room at 10 % humidity) scores 45, red. */
  lemma CombinedExample(s: Snapshot)
    requires s.heartRate == Some(30.0) && s.spo2 == Some(90.0) && s.bodyTemp == Some(38.0)
    requires s.roomTemp == Some(40.0) && s.humidity == Some(10.0)
    ensures CalculateHealthScore(s) == Health(45, Red)
  {
  }

  /** Banding is antitone: a higher score is never a more severe colour. */
  lemma BandMonotone(a: int, b: int)
    requires a <= b
    ensures Band(b).Rank() <= Band(a).Rank()
  {
  }

  /** Failing more checks never raises the score nor lowers the severity. */
  lemma ScoreMonotone(s: Snapshot, t: Snapshot)
    requires forall f :: Violated(s, f) ==> Violated(t, f)
    ensures CalculateHealthScore(t).score <= CalculateHealthScore(s).score
    ensures CalculateHealthScore(s).color.Rank() <= CalculateHealthScore(t).color.Rank()
  {
    assert forall f :: Penalty(s, f) <= Penalty(t, f);
    BandMonotone(CalculateHealthScore(t).score, CalculateHealthScore(s).score);
  }
}
