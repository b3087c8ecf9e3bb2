/**
 * The sensor refresh script: every sensor gets one update that stamps it as
 * seen now and nudges its value by a small per-type jitter, clamped at zero.
 * The random draw is an input: `draws[i]` is what `random.uniform` returned
 * for sensor `i`, within that sensor type's range.
 */
module RefreshSensors {
  import opened Wrappers
  import opened SensorRows

  /** The half-width of the jitter range: ±0.5 psi, ±1.0 L/s, ±0.1 dB; other types are not jittered. */
  function JitterBound(sensorType: string): (r: real)
    ensures r >= 0.0
  {
    if sensorType == "pressure" then 0.5
    else if sensorType == "flow" then 1.0
    else if sensorType == "acoustic" then 0.1
    else 0.0
  }

  /** A draw `random.uniform(-b, b)` can return for this type. */
  predicate DrawInRange(sensorType: string, draw: real) {
    -JitterBound(sensorType) <= draw <= JitterBound(sensorType)
  }

  /** The value before clamping: jittered for the three known types, unchanged otherwise. */
  function Jittered(current: real, sensorType: string, draw: real): (r: real)
    requires DrawInRange(sensorType, draw)
    ensures -JitterBound(sensorType) <= r - current <= JitterBound(sensorType)
    ensures sensorType !in {"pressure", "flow", "acoustic"} ==> r == current
  {
    if sensorType in {"pressure", "flow", "acoustic"} then current + draw else current
  }

  /** The value written: `None` stays `None`; otherwise the jittered value, with a negative result replaced by 0. */
  function NewReading(current: Option<real>, sensorType: string, draw: real): (r: Option<real>)
    requires DrawInRange(sensorType, draw)
    ensures r.None? <==> current.None?
    ensures r.Some? ==> r.value >= 0.0
    ensures r.Some? ==> (r.value == Jittered(current.value, sensorType, draw)
                        || (Jittered(current.value, sensorType, draw) < 0.0 && r.value == 0.0))
  {
    match current
    case None => None
    case Some(v) =>
      var j := Jittered(v, sensorType, draw);
      Some(if j < 0.0 then 0.0 else j)
  }

  /** For a reading that was not negative, the written value stays within the type's jitter of it. */
  lemma ClampKeepsJitterBound(v: real, sensorType: string, draw: real)
    requires v >= 0.0 && DrawInRange(sensorType, draw)
    ensures -JitterBound(sensorType) <= NewReading(Some(v), sensorType, draw).value - v <= JitterBound(sensorType)
  {
  }

  /** The clamp only replaces negative results: a non-negative jittered value is written as is. */
  lemma ClampOnlyNegatives(v: real, sensorType: string, draw: real)
    requires DrawInRange(sensorType, draw)
    ensures Jittered(v, sensorType, draw) >= 0.0 ==> NewReading(Some(v), sensorType, draw) == Some(Jittered(v, sensorType, draw))
    ensures Jittered(v, sensorType, draw) < 0.0 ==> NewReading(Some(v), sensorType, draw) == Some(0.0)
  {
  }

  /** One update call: the sensor's id, the new value, and `last_seen` set to the database's `now()`. */
  datatype Update = Update(sensorId: string, value: Option<real>, lastSeen: string)

  /** The draws fit the sensors they are used for. */
  predicate DrawsFit(ss: seq<Sensor>, draws: seq<real>) {
    |draws| == |ss| && forall i :: 0 <= i < |ss| ==> DrawInRange(ss[i].sensorType, draws[i])
  }

  /**
   * `refresh_all_sensors` without its I/O: a missing or empty sensor list gives
   * no updates; otherwise exactly one update per sensor, in list order.
   */
  method RefreshAll(sensors: Option<seq<Sensor>>, draws: seq<real>) returns (updates: seq<Update>)
    requires sensors.Some? ==> DrawsFit(sensors.value, draws)
    ensures sensors.None? || sensors.value == [] ==> updates == []
    ensures sensors.Some? ==> |updates| == |sensors.value|
    ensures sensors.Some? ==> forall i :: 0 <= i < |updates| ==>
              updates[i] == Update(sensors.value[i].id,
                                   NewReading(sensors.value[i].value, sensors.value[i].sensorType, draws[i]),
                                   "now()")
    ensures forall i :: 0 <= i < |updates| && updates[i].value.Some? ==> updates[i].value.value >= 0.0
  {
    updates := [];
    if sensors.None? || sensors.value == [] {
      return;
    }
    var ss := sensors.value;
    var i := 0;
    while i < |ss|
      invariant 0 <= i <= |ss|
      invariant |updates| == i
      invariant forall k :: 0 <= k < i ==>
                  updates[k] == Update(ss[k].id, NewReading(ss[k].value, ss[k].sensorType, draws[k]), "now()")
    {
      var sensor := ss[i];
      var newValue: Option<real>;
      if sensor.value.Some? {
        var current := sensor.value.value;
        var v: real;
        if sensor.sensorType == "pressure" {
          v := current + draws[i];
        } else if sensor.sensorType == "flow" {
          v := current + draws[i];
        } else if sensor.sensorType == "acoustic" {
          v := current + draws[i];
        } else {
          v := current;
        }
        if v < 0.0 {
          v := 0.0;
        }
        newValue := Some(v);
      } else {
        newValue := None;
      }
      updates := updates + [Update(sensor.id, newValue, "now()")];
      i := i + 1;
    }
  }
}
