/** A row of the `sensors` table, as both the sensor page and the maintenance scripts read it. */
module SensorRows {
  import opened Wrappers

  /**
   * `assetType` is `"edge"` or `"node"`; `sensorType` is `"pressure"`,
   * `"flow"`, `"acoustic"` or another word; `value` may be null.
   */
  datatype Sensor = Sensor(id: string, assetType: string, assetId: string, sensorType: string, value: Option<real>)

  function AssetTypes(ss: seq<Sensor>): (r: seq<string>)
    ensures |r| == |ss| && forall i :: 0 <= i < |ss| ==> r[i] == ss[i].assetType
  {
    seq(|ss|, i requires 0 <= i < |ss| => ss[i].assetType)
  }

  function AssetIds(ss: seq<Sensor>): (r: seq<string>)
    ensures |r| == |ss| && forall i :: 0 <= i < |ss| ==> r[i] == ss[i].assetId
  {
    seq(|ss|, i requires 0 <= i < |ss| => ss[i].assetId)
  }
}
