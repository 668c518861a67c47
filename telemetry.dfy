/** The device record pushed to both dashboards, and the small derivations
    both App components compute inline from it: device liveness, the SpO2
    gauge value and the ECG sample value. */
module Telemetry {

  /** A value that may be missing. `None` stands for a JavaScript
      `undefined` or `NaN` field, for which every `<` and `>` is false. */
  datatype Option<+T> = None | Some(value: T)

  /** One whole device record. Every update replaces the previous record. */
  datatype Snapshot = Snapshot(
    heartRate: Option<real>,     // beats per minute
    spo2: Option<real>,          // percent; NoReading means "no reading"
    bodyTemp: Option<real>,      // degrees Celsius
    roomTemp: Option<real>,      // degrees Celsius
    humidity: Option<real>,      // percent
    ecgRaw: Option<int>,         // raw ECG sample
    leadsOff: bool,
    lastActive: int,             // epoch milliseconds of the last device heartbeat
    alertMessage: Option<string> // alerts separated by ';'
  )

  /** The record both App components start with, before any update. */
  const InitialSnapshot: Snapshot :=
    Snapshot(Some(0.0), Some(0.0), Some(0.0), Some(0.0), Some(0.0), Some(0), true, 0, Some(""))

  /** The SpO2 value the device sends when the sensor has no reading. */
  const NoReading: real := -999.0

  /** A device is online while its last heartbeat is younger than this. */
  const StalenessMs: int := 5000

  /** Liveness: the last heartbeat is strictly younger than StalenessMs. */
  predicate IsOnline(now: int, lastActive: int)
  {
    now - lastActive < StalenessMs
  }

  /** Worked examples: 5 ms after a heartbeat the device is
      online, 5005 ms after it is offline; a device whose heartbeat is still
      0 is offline at any time from 5000 on. */
  lemma OnlineExamples(now: int)
    requires now >= 5000
    ensures IsOnline(1005, 1000)
    ensures !IsOnline(6005, 1000)
    ensures !IsOnline(now, 0)
  {
  }

  /** The threshold is strict: exactly StalenessMs after the heartbeat the
      device is already offline, one millisecond before it is online. */
  lemma OnlineBoundary(lastActive: int)
    ensures IsOnline(lastActive + StalenessMs - 1, lastActive)
    ensures !IsOnline(lastActive + StalenessMs, lastActive)
  {
  }

  /** Without a new heartbeat, an offline device stays offline at every later
      tick, and an online device was online at every earlier time after its
      heartbeat. */
  lemma OfflineIsPermanent(now: int, later: int, lastActive: int)
    requires now <= later
    ensures !IsOnline(now, lastActive) ==> !IsOnline(later, lastActive)
    ensures IsOnline(later, lastActive) ==> IsOnline(now, lastActive)
  {
  }

  /** The value the SpO2 gauge shows: 0 for the no-reading sentinel, the
      reading otherwise; a missing reading stays missing. */
  function SpO2Gauge(spo2: Option<real>): (shown: Option<real>)
    ensures shown.None? <==> spo2.None?
    ensures spo2 == Some(NoReading) ==> shown == Some(0.0)
    ensures spo2.Some? && spo2.value != NoReading ==> shown == spo2
    ensures shown != Some(NoReading)
  {
    match spo2
    case None => None
    case Some(v) => if v != NoReading then Some(v) else Some(0.0)
  }

  /** `ecgRaw || 0`: a falsy sample (missing, NaN or 0) becomes 0. */
  function EcgValue(raw: Option<int>): (y: int)
    ensures raw.Some? ==> y == raw.value
    ensures raw.None? ==> y == 0
  {
    match raw
    case None => 0
    case Some(v) => if v != 0 then v else 0
  }
}
