/**
 * The sensor page: the edge-name lookup, the grouping of edge sensors by pipe
 * keeping the latest reading per sensor type, and the alert rule.
 */
module SensorData {
  import opened Wrappers
  import opened SensorRows
  import opened KeyedMaps
  import Text
  import Constants

  /** A row of the edges lookup query. */
  datatype EdgeRow = EdgeRow(id: string, name: string)

  /** `edgeNameMap`: built with the `Map` constructor, so a later row for an id replaces an earlier one. */
  function EdgeNameMap(rows: seq<EdgeRow>): (r: map<string, string>)
    ensures rows != [] ==> rows[|rows| - 1].id in r && r[rows[|rows| - 1].id] == rows[|rows| - 1].name
  {
    Registered(seq(|rows|, i requires 0 <= i < |rows| => Some((rows[i].id, rows[i].name))))
  }

  /** Every edge row's id is in the lookup, and nothing else is. */
  lemma EdgeNameMapKeys(rows: seq<EdgeRow>, id: string)
    ensures id in EdgeNameMap(rows) <==> exists i :: 0 <= i < |rows| && rows[i].id == id
  {
    var entries := seq(|rows|, i requires 0 <= i < |rows| => Some((rows[i].id, rows[i].name)));
    RegisteredKeys(entries, id);
    if exists i :: 0 <= i < |rows| && rows[i].id == id {
      var i :| 0 <= i < |rows| && rows[i].id == id;
      assert SetsKey(entries, i, id);
    }
  }

  /** A looked-up name is the name of the last row with that id, as the `Map` constructor keeps it. */
  lemma EdgeNameMapLastWins(rows: seq<EdgeRow>, id: string)
    ensures id in EdgeNameMap(rows) ==>
              exists i :: 0 <= i < |rows| && rows[i].id == id && EdgeNameMap(rows)[id] == rows[i].name
                          && forall j :: i < j < |rows| ==> rows[j].id != id
  {
    var entries := seq(|rows|, i requires 0 <= i < |rows| => Some((rows[i].id, rows[i].name)));
    if id in EdgeNameMap(rows) {
      RegisteredLastWins(entries, id);
      var i :| LastSetting(entries, i, id) && Registered(entries)[id] == entries[i].value.1;
      forall j | i < j < |rows| ensures rows[j].id != id {
        assert !SetsKey(entries, j, id);
      }
    }
  }

  /** A group's name: the looked-up edge name, or the first 8 characters of the id when that is missing or empty. */
  function DisplayName(names: map<string, string>, edgeId: string): (r: string)
    ensures edgeId in names && names[edgeId] != "" ==> r == names[edgeId]
    ensures !(edgeId in names && names[edgeId] != "") ==> r <= edgeId && |r| == if |edgeId| < 8 then |edgeId| else 8
  {
    if edgeId in names && names[edgeId] != "" then names[edgeId] else Text.Take(edgeId, 8)
  }

  /** One pipe's card: its id, its name, and its kept readings. */
  datatype Group = Group(id: string, name: string, sensors: seq<Sensor>)

  /** Some kept reading already has this sensor type (the `findIndex` test). */
  predicate HasType(readings: seq<Sensor>, t: string) {
    exists k :: 0 <= k < |readings| && readings[k].sensorType == t
  }

  /** One step of the `reduce`: only edge sensors are grouped, and a type already kept for that pipe is skipped. */
  function AddReading(acc: map<string, Group>, s: Sensor, names: map<string, string>): (r: map<string, Group>)
    ensures s.assetType != "edge" ==> r == acc
    ensures s.assetType == "edge" ==> r.Keys == acc.Keys + {s.assetId} && HasType(r[s.assetId].sensors, s.sensorType)
    ensures forall k :: k in acc && k != s.assetId ==> r[k] == acc[k]
  {
    if s.assetType != "edge" then acc
    else
      var g := if s.assetId in acc then acc[s.assetId] else Group(s.assetId, DisplayName(names, s.assetId), []);
      if HasType(g.sensors, s.sensorType) then acc[s.assetId := g]
      else
        assert (g.sensors + [s])[|g.sensors|] == s;
        acc[s.assetId := g.(sensors := g.sensors + [s])]
  }

  /** `sensorsByEdge`: the `reduce` over all rows, in query order. */
  function GroupsOf(ss: seq<Sensor>, names: map<string, string>): (r: map<string, Group>)
    ensures forall id :: id in r ==> r[id].id == id && r[id].name == DisplayName(names, id)
  {
    if ss == [] then map[] else AddReading(GroupsOf(ss[..|ss| - 1], names), ss[|ss| - 1], names)
  }

  /** `findIndex` on a group's readings: the first index with type `t`, or -1. */
  method FindTypeIndex(readings: seq<Sensor>, t: string) returns (index: int)
    ensures -1 <= index < |readings|
    ensures index == -1 <==> !HasType(readings, t)
    ensures index >= 0 ==>
              readings[index].sensorType == t && forall k :: 0 <= k < index ==> readings[k].sensorType != t
  {
    var k := 0;
    while k < |readings|
      invariant 0 <= k <= |readings|
      invariant forall j :: 0 <= j < k ==> readings[j].sensorType != t
    {
      if readings[k].sensorType == t {
        return k;
      }
      k := k + 1;
    }
    return -1;
  }

  /** The `reduce` as the page runs it, mutating one accumulator. */
  method GroupSensorsByEdge(ss: seq<Sensor>, names: map<string, string>) returns (acc: map<string, Group>)
    ensures acc == GroupsOf(ss, names)
  {
    acc := map[];
    var i := 0;
    while i < |ss|
      invariant 0 <= i <= |ss|
      invariant acc == GroupsOf(ss[..i], names)
    {
      assert ss[..i + 1][..i] == ss[..i];
      acc := Accumulate(acc, ss[i], names);
      i := i + 1;
    }
    assert ss[..|ss|] == ss;
  }

  /** The reducer's body: create the pipe's group on its first reading, then push a reading of a type not yet kept. */
  method Accumulate(acc0: map<string, Group>, s: Sensor, names: map<string, string>) returns (acc: map<string, Group>)
    ensures acc == AddReading(acc0, s, names)
  {
    acc := acc0;
    if s.assetType == "edge" {
      var edgeId := s.assetId;
      if edgeId !in acc {
        acc := acc[edgeId := Group(edgeId, DisplayName(names, edgeId), [])];
      }
      var existing := FindTypeIndex(acc[edgeId].sensors, s.sensorType);
      if existing == -1 {
        acc := acc[edgeId := acc[edgeId].(sensors := acc[edgeId].sensors + [s])];
      }
    }
  }

  /** The reading counted for pipe `id` and type `t`. */
  predicate Matches(s: Sensor, id: string, t: string) {
    s.assetType == "edge" && s.assetId == id && s.sensorType == t
  }

  /** Some edge sensor belongs to pipe `id`. */
  predicate HasEdgeReadings(ss: seq<Sensor>, id: string) {
    exists i :: 0 <= i < |ss| && ss[i].assetType == "edge" && ss[i].assetId == id
  }

  /** Index `i` holds the first reading of type `t` for pipe `id`. */
  predicate FirstOf(ss: seq<Sensor>, i: int, id: string, t: string) {
    0 <= i < |ss| && Matches(ss[i], id, t) && forall j :: 0 <= j < i ==> !Matches(ss[j], id, t)
  }

  /** Reading `x` is, in `ss`, the first reading of its type for pipe `id`. */
  ghost predicate IsFirstReading(ss: seq<Sensor>, x: Sensor, id: string) {
    exists i :: FirstOf(ss, i, id, x.sensorType) && ss[i] == x
  }

  /** The shape every group has after the `reduce`. */
  ghost predicate GroupOk(ss: seq<Sensor>, g: Group, id: string, names: map<string, string>) {
    && g.id == id
    && g.name == DisplayName(names, id)
    && (forall a, b :: 0 <= a < b < |g.sensors| ==> g.sensors[a].sensorType != g.sensors[b].sensorType)
    && (forall k :: 0 <= k < |g.sensors| ==> IsFirstReading(ss, g.sensors[k], id))
    && (forall i :: 0 <= i < |ss| && ss[i].assetType == "edge" && ss[i].assetId == id ==>
          HasType(g.sensors, ss[i].sensorType))
  }

  /**
   * The grouping, whole: there is one group per pipe that has edge sensors and
   * no other; each is named by the lookup or the truncated id; within a group no
   * two readings share a type; each kept reading is the first of its type for
   * that pipe in input order; and every (pipe, type) pair of the input is there.
   */
  lemma {:induction false} GroupsOfShape(ss: seq<Sensor>, names: map<string, string>, id: string)
    ensures id in GroupsOf(ss, names) <==> HasEdgeReadings(ss, id)
    ensures id in GroupsOf(ss, names) ==> GroupOk(ss, GroupsOf(ss, names)[id], id, names)
  {
    if ss != [] {
      var n := |ss| - 1;
      var init := ss[..n];
      var s := ss[n];
      assert ss == init + [s];
      GroupsOfShape(init, names, id);
      EdgeReadingsSnoc(init, s, id);
      var before := GroupsOf(init, names);
      var after := GroupsOf(ss, names);
      if id in after {
        if s.assetType == "edge" && s.assetId == id {
          var g := if id in before then before[id] else Group(id, DisplayName(names, id), []);
          if id !in before {
            EmptyGroupOk(init, id, names);
          }
          GroupStepOk(init, s, g, id, names);
          assert after[id] == if HasType(g.sensors, s.sensorType) then g else g.(sensors := g.sensors + [s]);
        } else {
          assert after[id] == before[id];
          GroupUnchangedOk(init, s, before[id], id, names);
        }
      }
    }
  }

  /** A pipe has edge readings after one more row when it had some before or the row is one. */
  lemma EdgeReadingsSnoc(init: seq<Sensor>, s: Sensor, id: string)
    ensures HasEdgeReadings(init + [s], id) <==> HasEdgeReadings(init, id) || (s.assetType == "edge" && s.assetId == id)
  {
    var ss := init + [s];
    if HasEdgeReadings(ss, id) && !(s.assetType == "edge" && s.assetId == id) {
      var i :| 0 <= i < |ss| && ss[i].assetType == "edge" && ss[i].assetId == id;
      assert i < |init| && init[i] == ss[i];
    }
    if HasEdgeReadings(init, id) {
      var i :| 0 <= i < |init| && init[i].assetType == "edge" && init[i].assetId == id;
      assert ss[i] == init[i];
    }
    if s.assetType == "edge" && s.assetId == id {
      assert ss[|init|] == s;
    }
  }

  /** The fresh, empty card of a pipe with no edge readings yet is well shaped. */
  lemma EmptyGroupOk(init: seq<Sensor>, id: string, names: map<string, string>)
    requires !HasEdgeReadings(init, id)
    ensures GroupOk(init, Group(id, DisplayName(names, id), []), id, names)
  {
  }

  /** The group of the pipe a new edge reading belongs to stays well shaped. */
  lemma GroupStepOk(init: seq<Sensor>, s: Sensor, g: Group, id: string, names: map<string, string>)
    requires s.assetType == "edge" && s.assetId == id
    requires GroupOk(init, g, id, names)
    ensures GroupOk(init + [s], if HasType(g.sensors, s.sensorType) then g else g.(sensors := g.sensors + [s]), id, names)
  {
    if HasType(g.sensors, s.sensorType) {
      GroupKeepOk(init, s, g, id, names);
    } else {
      GroupAppendOk(init, s, g, id, names);
    }
  }

  /** A reading of a type the group already holds is dropped, and the group stays well shaped. */
  lemma GroupKeepOk(init: seq<Sensor>, s: Sensor, g: Group, id: string, names: map<string, string>)
    requires s.assetType == "edge" && s.assetId == id
    requires HasType(g.sensors, s.sensorType)
    requires GroupOk(init, g, id, names)
    ensures GroupOk(init + [s], g, id, names)
  {
    var ss := init + [s];
    forall k | 0 <= k < |g.sensors|
      ensures IsFirstReading(ss, g.sensors[k], id)
    {
      var i :| FirstOf(init, i, id, g.sensors[k].sensorType) && init[i] == g.sensors[k];
      FirstOfExtend(init, s, i, id, g.sensors[k].sensorType);
      assert FirstOf(ss, i, id, g.sensors[k].sensorType) && ss[i] == g.sensors[k];
    }
    forall i | 0 <= i < |ss| && ss[i].assetType == "edge" && ss[i].assetId == id
      ensures HasType(g.sensors, ss[i].sensorType)
    {
      if i < |init| {
        assert ss[i] == init[i];
      } else {
        assert ss[i] == s;
      }
    }
  }

  /** A reading of a new type is appended, and it is the first of its type. */
  lemma GroupAppendOk(init: seq<Sensor>, s: Sensor, g: Group, id: string, names: map<string, string>)
    requires s.assetType == "edge" && s.assetId == id
    requires !HasType(g.sensors, s.sensorType)
    requires GroupOk(init, g, id, names)
    ensures GroupOk(init + [s], g.(sensors := g.sensors + [s]), id, names)
  {
    var ss := init + [s];
    var n := |init|;
    var g2 := g.(sensors := g.sensors + [s]);
    forall a, b | 0 <= a < b < |g2.sensors|
      ensures g2.sensors[a].sensorType != g2.sensors[b].sensorType
    {
      if b == |g.sensors| {
        assert g2.sensors[a] == g.sensors[a];
      }
    }
    forall k | 0 <= k < |g2.sensors|
      ensures IsFirstReading(ss, g2.sensors[k], id)
    {
      if k < |g.sensors| {
        var i :| FirstOf(init, i, id, g.sensors[k].sensorType) && init[i] == g.sensors[k];
        FirstOfExtend(init, s, i, id, g.sensors[k].sensorType);
        assert FirstOf(ss, i, id, g2.sensors[k].sensorType) && ss[i] == g2.sensors[k];
      } else {
        assert g2.sensors[k] == s;
        forall j | 0 <= j < n ensures !Matches(ss[j], id, s.sensorType) {
          assert ss[j] == init[j];
        }
        assert FirstOf(ss, n, id, s.sensorType) && ss[n] == s;
      }
    }
    forall i | 0 <= i < |ss| && ss[i].assetType == "edge" && ss[i].assetId == id
      ensures HasType(g2.sensors, ss[i].sensorType)
    {
      if i < n {
        assert ss[i] == init[i];
        assert HasType(g.sensors, init[i].sensorType);
        var k :| 0 <= k < |g.sensors| && g.sensors[k].sensorType == init[i].sensorType;
        assert g2.sensors[k] == g.sensors[k];
      } else {
        assert g2.sensors[|g.sensors|] == s;
      }
    }
  }

  /** A group the new reading does not touch stays well shaped. */
  lemma GroupUnchangedOk(init: seq<Sensor>, s: Sensor, g: Group, id: string, names: map<string, string>)
    requires !(s.assetType == "edge" && s.assetId == id)
    requires GroupOk(init, g, id, names)
    ensures GroupOk(init + [s], g, id, names)
  {
    var ss := init + [s];
    assert forall i :: 0 <= i < |init| ==> ss[i] == init[i];
    forall k | 0 <= k < |g.sensors|
      ensures IsFirstReading(ss, g.sensors[k], id)
    {
      var i :| FirstOf(init, i, id, g.sensors[k].sensorType) && init[i] == g.sensors[k];
      FirstOfExtend(init, s, i, id, g.sensors[k].sensorType);
      assert FirstOf(ss, i, id, g.sensors[k].sensorType) && ss[i] == g.sensors[k];
    }
    forall i | 0 <= i < |ss| && ss[i].assetType == "edge" && ss[i].assetId == id
      ensures HasType(g.sensors, ss[i].sensorType)
    {
      assert i < |init| && ss[i] == init[i];
    }
  }

  /** Appending a reading does not move the first reading of a type. */
  lemma FirstOfExtend(init: seq<Sensor>, s: Sensor, i: int, id: string, t: string)
    requires FirstOf(init, i, id, t)
    ensures FirstOf(init + [s], i, id, t)
  {
    var ss := init + [s];
    forall j | 0 <= j < i ensures !Matches(ss[j], id, t) {
      assert ss[j] == init[j];
    }
  }

  /** The alert rule's cut-offs: strictly below 55 psi, strictly above 5 dB, strictly above 110 L/s. */
  const PressureCutoff: real := 55.0
  const AcousticCutoff: real := 5.0
  const FlowCutoff: real := 110.0

  /** JavaScript's relational operators read a `null` value as 0. */
  function NumericValue(value: Option<real>): real {
    value.GetOr(0.0)
  }

  predicate IsAlert(sensorType: string, value: Option<real>) {
    || (sensorType == "pressure" && NumericValue(value) < PressureCutoff)
    || (sensorType == "acoustic" && NumericValue(value) > AcousticCutoff)
    || (sensorType == "flow" && NumericValue(value) > FlowCutoff)
  }

  const AlertClass := "text-red-600 font-bold"
  const QuietClass := "text-muted-foreground"

  /** `getStatusColor`: the red class for an alerting reading, the muted class otherwise. */
  function StatusColor(sensorType: string, value: Option<real>): (r: string)
    ensures r == AlertClass <==> IsAlert(sensorType, value)
    ensures r == AlertClass || r == QuietClass
  {
    if sensorType == "pressure" && NumericValue(value) < PressureCutoff then AlertClass
    else if sensorType == "acoustic" && NumericValue(value) > AcousticCutoff then AlertClass
    else if sensorType == "flow" && NumericValue(value) > FlowCutoff then AlertClass
    else QuietClass
  }

  datatype Badge = AlertBadge

  /** `getStatusBadge`: the warning flag is raised by any of the three checks, and then the Alert badge is shown. */
  function StatusBadge(sensorType: string, value: Option<real>): (r: Option<Badge>)
    ensures r.Some? <==> IsAlert(sensorType, value)
  {
    var isWarning := false;
    var isWarning := if sensorType == "pressure" && NumericValue(value) < PressureCutoff then true else isWarning;
    var isWarning := if sensorType == "acoustic" && NumericValue(value) > AcousticCutoff then true else isWarning;
    var isWarning := if sensorType == "flow" && NumericValue(value) > FlowCutoff then true else isWarning;
    if isWarning then Some(AlertBadge) else None
  }

  /** The badge and the colour agree: the Alert badge appears exactly when the text is red. */
  lemma BadgeMatchesColor(sensorType: string, value: Option<real>)
    ensures StatusBadge(sensorType, value).Some? <==> StatusColor(sensorType, value) == AlertClass
  {
  }

  /** The comparisons are strict: a reading exactly at a cut-off does not alert, and other types never alert. */
  lemma CutoffsAreStrict(sensorType: string)
    ensures !IsAlert("pressure", Some(PressureCutoff))
    ensures !IsAlert("acoustic", Some(AcousticCutoff))
    ensures !IsAlert("flow", Some(FlowCutoff))
    ensures sensorType !in {"pressure", "acoustic", "flow"} ==> forall v :: !IsAlert(sensorType, v)
  {
  }

  /** The cut-offs written into the page are the shared thresholds. */
  lemma CutoffsAreThresholds()
    ensures PressureCutoff == Constants.PressureLowThreshold
    ensures AcousticCutoff == Constants.AcousticHighThreshold
    ensures FlowCutoff == Constants.FlowHighThreshold
  {
  }

  /** A reading within its type's normal range never alerts. */
  lemma NormalRangeIsQuiet(v: real)
    ensures Constants.PressureNormalMin <= v <= Constants.PressureNormalMax ==> !IsAlert("pressure", Some(v))
    ensures Constants.AcousticNormalMin <= v <= Constants.AcousticNormalMax ==> !IsAlert("acoustic", Some(v))
    ensures Constants.FlowNormalMin <= v <= Constants.FlowNormalMax ==> !IsAlert("flow", Some(v))
  {
    Constants.ThresholdOrdering();
  }

  /** A pressure reading with a null value alerts, because `null < 55` holds in JavaScript. */
  lemma NullPressureAlerts()
    ensures IsAlert("pressure", None) && !IsAlert("acoustic", None) && !IsAlert("flow", None)
  {
  }
}
