/** The mobile App component's state: the last record, the ECG buffer of
    timestamped points (capacity 50), the liveness flag, the health score,
    and the alert badge it feeds with the parsed alert list. */
module MobileApp {
  import opened Telemetry
  import HealthScore
  import AlertParsing
  import Waveform
  import MobileAlertMessage

  const EcgCapacity: nat := 50

  /** A waveform point: arrival time and sample value. */
  datatype EcgPoint = EcgPoint(x: int, y: int)

  class Dashboard {
    var data: Snapshot
    var ecgData: seq<EcgPoint>
    var isOnline: bool
    var healthScore: HealthScore.Health
    const alerts: MobileAlertMessage.Rotator

    /** The buffer is within capacity and the score within [0, 100]. This
        holds between a state update and the render that follows it. */
    ghost predicate Settled()
      reads this, alerts
    {
      |ecgData| <= EcgCapacity
      && 0 <= healthScore.score <= 100
    }

    /** Settled, and the badge shows the alerts parsed from the current
        record. */
    ghost predicate Valid()
      reads this, alerts
    {
      Settled() && alerts.alertMessages == AlertParsing.ParseAlerts(data.alertMessage)
    }

    /** Mounting at time `now`: the initial record, an empty buffer, the
        placeholder score 0 in amber, and a first liveness check against a
        heartbeat at time 0. */
    constructor (now: int)
      ensures Valid() && fresh(alerts)
      ensures data == InitialSnapshot && ecgData == []
      ensures healthScore == HealthScore.Health(0, HealthScore.Amber)
      ensures isOnline == IsOnline(now, 0)
      ensures alerts.alertMessages == [] && alerts.currentIndex == 0
    {
      data := InitialSnapshot;
      ecgData := [];
      healthScore := HealthScore.Health(0, HealthScore.Amber);
      isOnline := IsOnline(now, InitialSnapshot.lastActive);
      alerts := new MobileAlertMessage.Rotator(AlertParsing.ParseAlerts(InitialSnapshot.alertMessage));
    }

    /** The database listener: a new record taken at time `now` replaces the old one, its
        ECG sample is appended (one head sample dropped beyond capacity) and
        the score is recomputed. The badge and the online flag are left
        alone until the render and the effects that follow. */
    method OnValue(val: Snapshot, now: int)
      requires Settled()
      modifies this
      ensures Settled()
      ensures data == val
      ensures ecgData == Waveform.Pushed(old(ecgData), EcgPoint(now, EcgValue(val.ecgRaw)), EcgCapacity)
      ensures ecgData[|ecgData| - 1] == EcgPoint(now, EcgValue(val.ecgRaw))
      ensures healthScore == HealthScore.CalculateHealthScore(val)
      ensures isOnline == old(isOnline)
    {
      var sample := EcgPoint(now, EcgValue(val.ecgRaw));
      var next := ecgData + [sample];
      if |next| > EcgCapacity {
        next := next[1..];
      }
      assert next == Waveform.Pushed(ecgData, sample, EcgCapacity);
      data := val;
      ecgData := next;
      healthScore := HealthScore.CalculateHealthScore(val);
    }

    /** The render after a record: the alert list parsed from the record is
        passed to the badge, with its cursor kept. */
    method Render()
      requires Settled()
      modifies alerts
      ensures Valid()
      ensures alerts.alertMessages == AlertParsing.ParseAlerts(data.alertMessage)
      ensures alerts.currentIndex == old(alerts.currentIndex)
    {
      alerts.SetMessages(AlertParsing.ParseAlerts(data.alertMessage));
    }

    /** A record arriving at time `now`: the listener runs, the component
        re-renders, and the liveness effect re-checks the heartbeat if it
        changed. */
    method OnSnapshot(val: Snapshot, now: int)
      requires Valid()
      modifies this, alerts
      ensures Valid()
      ensures data == val
      ensures ecgData == Waveform.Pushed(old(ecgData), EcgPoint(now, EcgValue(val.ecgRaw)), EcgCapacity)
      ensures healthScore == HealthScore.CalculateHealthScore(val)
      ensures isOnline == if val.lastActive != old(data.lastActive) then IsOnline(now, val.lastActive)
                          else old(isOnline)
      ensures alerts.alertMessages == AlertParsing.ParseAlerts(val.alertMessage)
      ensures alerts.currentIndex == old(alerts.currentIndex)
    {
      var previousLastActive := data.lastActive;
      OnValue(val, now);
      Render();
      if val.lastActive != previousLastActive {
        CheckStatus(now);
      }
    }

    /** The five-second liveness tick at time `now`. */
    method CheckStatus(now: int)
      requires Valid()
      modifies this`isOnline
      ensures Valid()
      ensures isOnline == IsOnline(now, data.lastActive)
    {
      isOnline := IsOnline(now, data.lastActive);
    }
  }
}
