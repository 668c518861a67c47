/** The web App component's state: the last record, the ECG buffer of
    sample values (capacity 100), the liveness flag, the health score,
    and the alert badge it feeds with the parsed alert list. */
module WebApp {
  import opened Telemetry
  import HealthScore
  import AlertParsing
  import Waveform
  import WebAlertMessage

  const EcgCapacity: nat := 100

  /** A waveform sample; its position in the buffer is its place on the time axis. */
  datatype EcgSample = EcgSample(value: int)

  class Dashboard {
    var data: Snapshot
    var ecgData: seq<EcgSample>
    var isOnline: bool
    var healthScore: HealthScore.Health
    const alerts: WebAlertMessage.Rotator

    /** The buffer is within capacity and the score within [0, 100]. This
        holds between a state update and the render that follows it. */
    ghost predicate Settled()
      reads this, alerts
    {
      |ecgData| <= EcgCapacity
      && 0 <= healthScore.score <= 100
      && alerts.Valid()
    }

    /** Settled, and the badge shows the alerts parsed from the current
        record. */
    ghost predicate Valid()
      reads this, alerts
    {
      Settled() && alerts.alertMessages == AlertParsing.ParseAlerts(data.alertMessage)
    }

    /** Mounting at time `now`: the initial record, an empty buffer, the
        placeholder score 0 in amber, and a first liveness check against a
        heartbeat at time 0. */
    constructor (now: int)
      ensures Valid() && fresh(alerts)
      ensures data == InitialSnapshot && ecgData == []
      ensures healthScore == HealthScore.Health(0, HealthScore.Amber)
      ensures isOnline == IsOnline(now, 0)
      ensures alerts.alertMessages == [] && alerts.current == 0
    {
      data := InitialSnapshot;
      ecgData := [];
      healthScore := HealthScore.Health(0, HealthScore.Amber);
      isOnline := IsOnline(now, InitialSnapshot.lastActive);
      alerts := new WebAlertMessage.Rotator(AlertParsing.ParseAlerts(InitialSnapshot.alertMessage));
    }

    /** The database listener: a new record replaces the old one, its
        ECG sample is appended (one head sample dropped beyond capacity) and
        the score is recomputed. The badge and the online flag are left
        alone until the render and the effects that follow. */
    method OnValue(val: Snapshot)
      requires Settled()
      modifies this
      ensures Settled()
      ensures data == val
      ensures ecgData == Waveform.Pushed(old(ecgData), EcgSample(EcgValue(val.ecgRaw)), EcgCapacity)
      ensures ecgData[|ecgData| - 1] == EcgSample(EcgValue(val.ecgRaw))
      ensures healthScore == HealthScore.CalculateHealthScore(val)
      ensures isOnline == old(isOnline)
    {
      var sample := EcgSample(EcgValue(val.ecgRaw));
      var next := ecgData + [sample];
      if |next| > EcgCapacity {
        next := next[1..];
      }
      assert next == Waveform.Pushed(ecgData, sample, EcgCapacity);
      data := val;
      ecgData := next;
      healthScore := HealthScore.CalculateHealthScore(val);
    }

    /** The render after a record: the alert list parsed from the record is
        passed to the badge, with its cursor reset to 0 only when
        the list holds at most one alert. */
    method Render()
      requires Settled()
      modifies alerts
      ensures Valid()
      ensures alerts.alertMessages == AlertParsing.ParseAlerts(data.alertMessage)
      ensures alerts.current == if |alerts.alertMessages| <= 1 then 0 else old(alerts.current)
    {
      alerts.SetMessages(AlertParsing.ParseAlerts(data.alertMessage));
    }

    /** A record arriving at time `now`: the listener runs, the component
        re-renders, and the liveness effect re-checks the heartbeat if it
        changed. */
    method OnSnapshot(val: Snapshot, now: int)
      requires Valid()
      modifies this, alerts
      ensures Valid()
      ensures data == val
      ensures ecgData == Waveform.Pushed(old(ecgData), EcgSample(EcgValue(val.ecgRaw)), EcgCapacity)
      ensures healthScore == HealthScore.CalculateHealthScore(val)
      ensures isOnline == if val.lastActive != old(data.lastActive) then IsOnline(now, val.lastActive)
                          else old(isOnline)
      ensures alerts.alertMessages == AlertParsing.ParseAlerts(val.alertMessage)
      ensures alerts.current == if |alerts.alertMessages| <= 1 then 0 else old(alerts.current)
    {
      var previousLastActive := data.lastActive;
      OnValue(val);
      Render();
      if val.lastActive != previousLastActive {
        CheckStatus(now);
      }
    }

    /** The five-second liveness tick at time `now`. */
    method CheckStatus(now: int)
      requires Valid()
      modifies this`isOnline
      ensures Valid()
      ensures isOnline == IsOnline(now, data.lastActive)
    {
      isOnline := IsOnline(now, data.lastActive);
    }
  }
}
