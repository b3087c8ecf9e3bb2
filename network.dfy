/**
 * The network page's pure decision logic: the node-position lookup, the edge
 * colour rule for the three view modes, and the realtime rule that grows the
 * set of isolated edges.
 */
module Network {
  import opened Wrappers
  import Text

  /** A network asset (tank, reservoir, junction, ...) with its map position. */
  datatype Node = Node(id: string, name: string, nodeType: string, x: real, y: real, pressure: Option<real>)

  /**
   * A pipe between two nodes. Optional boolean flags are modelled as `bool`,
   * an absent flag reading as `false` exactly as JavaScript's truthiness test does.
   */
  datatype Edge = Edge(
    id: string,
    name: string,
    status: string,
    fromNodeId: string,
    toNodeId: string,
    activeIncidentCount: Option<int>,
    hasOpenIncidents: bool,
    hasAcknowledgedIncidents: bool,
    material: Option<string>,
    installationDate: Option<string>)

  datatype ViewMode = Status | Material | Age

  const Red := "#ef4444"
  const Slate := "#6b7280"
  const Grey := "#9ca3af"
  const Sky := "#0ea5e9"
  const Green := "#22c55e"
  const Amber := "#f59e0b"
  const Yellow := "#eab308"
  const Crimson := "#dc2626"
  const Orange := "#ea580c"
  const Ochre := "#ca8a04"
  const Lime := "#65a30d"

  /** JavaScript truthiness of an optional string: absent and empty are falsy. */
  predicate Truthy(s: Option<string>) {
    s.Some? && s.value != ""
  }

  /** `getNodePosition`: the position of the first node with this id, `None` when there is none. */
  function NodePosition(nodes: seq<Node>, nodeId: string): (r: Option<(real, real)>)
    ensures r.Some? ==> exists i :: 0 <= i < |nodes| && nodes[i].id == nodeId && r.value == (nodes[i].x, nodes[i].y)
  {
    if nodes == [] then None
    else if nodes[0].id == nodeId then Some((nodes[0].x, nodes[0].y))
    else NodePosition(nodes[1..], nodeId)
  }

  /** Node `i` is the first node with `nodeId`. */
  predicate FirstWithId(nodes: seq<Node>, i: int, nodeId: string) {
    0 <= i < |nodes| && nodes[i].id == nodeId && forall j :: 0 <= j < i ==> nodes[j].id != nodeId
  }

  /** The lookup is `None` exactly when no node has the id, and otherwise the first such node's `(x, y)`. */
  lemma {:induction false} NodePositionFirstMatch(nodes: seq<Node>, nodeId: string)
    ensures NodePosition(nodes, nodeId).None? <==> forall i :: 0 <= i < |nodes| ==> nodes[i].id != nodeId
    ensures NodePosition(nodes, nodeId).Some? ==>
              exists i :: FirstWithId(nodes, i, nodeId) && NodePosition(nodes, nodeId).value == (nodes[i].x, nodes[i].y)
  {
    if nodes != [] && nodes[0].id != nodeId {
      var tail := nodes[1..];
      NodePositionFirstMatch(tail, nodeId);
      if NodePosition(tail, nodeId).Some? {
        var i :| FirstWithId(tail, i, nodeId) && NodePosition(tail, nodeId).value == (tail[i].x, tail[i].y);
        assert FirstWithId(nodes, i + 1, nodeId);
      } else {
        forall i | 0 <= i < |nodes| ensures nodes[i].id != nodeId {
          if i > 0 { assert nodes[i] == tail[i - 1]; }
        }
      }
    } else if nodes != [] {
      assert FirstWithId(nodes, 0, nodeId);
    }
  }

  /** The year text of an installation date: what precedes the first `-`. */
  function YearText(date: string): (r: string)
    ensures r <= date && '-' !in r
  {
    Text.Before(date, '-')
  }

  /** Colour of the material view. `toLowerCase` is applied first; a missing or empty material is unknown. */
  function MaterialColor(material: Option<string>): (r: string)
    ensures r in {Red, Sky, Green, Amber, Grey}
  {
    var m := if Truthy(material) then Text.ToLower(material.value) else "unknown";
    if m == "iron" then Red
    else if m == "pvc" then Sky
    else if m == "pe" then Green
    else if m == "copper" then Amber
    else Grey
  }

  /**
   * Colour of the age view. `parseInt` of the year text may be `NaN` (`None`);
   * both comparisons with `NaN` are false, so such a date falls to green.
   */
  function AgeColor(date: Option<string>): (r: string)
    ensures r in {Grey, Red, Yellow, Green}
  {
    if !Truthy(date) then Grey
    else
      match Text.ParseInt(YearText(date.value))
      case None => Green
      case Some(year) => if year < 1990 then Red else if year < 2010 then Yellow else Green
  }

  /** Colour of the status view: incidents first, then the incident count, then the status word. */
  function StatusColor(e: Edge): (r: string)
    ensures r in {Crimson, Sky, Orange, Ochre, Lime}
  {
    if e.hasAcknowledgedIncidents || e.hasOpenIncidents then Crimson
    else if e.activeIncidentCount == Some(0) then Sky
    else if e.status == "critical" then Crimson
    else if e.status == "high" then Orange
    else if e.status == "medium" then Ochre
    else if e.status == "low" then Lime
    else Sky
  }

  /** `getEdgeColor`: isolation and closure override the view mode's own rule. */
  function EdgeColor(e: Edge, mode: ViewMode, isolated: set<string>): (r: string)
    ensures e.status == "isolated" || e.id in isolated ==> r == Red
    ensures e.status == "closed" && e.id !in isolated ==> r == Slate
    ensures r in {Red, Slate, Grey, Sky, Green, Amber, Yellow, Crimson, Orange, Ochre, Lime}
  {
    if e.status == "isolated" || e.id in isolated then Red
    else if e.status == "closed" then Slate
    else match mode
      case Material => MaterialColor(e.material)
      case Age => AgeColor(e.installationDate)
      case Status => StatusColor(e)
  }

  /** An isolated edge, by its status or by the realtime set, is red in every view mode. */
  lemma IsolatedIsRed(e: Edge, mode: ViewMode, isolated: set<string>)
    requires e.status == "isolated" || e.id in isolated
    ensures EdgeColor(e, mode, isolated) == Red
  {
  }

  /** Otherwise a closed edge is slate grey in every view mode. */
  lemma ClosedIsSlate(e: Edge, mode: ViewMode, isolated: set<string>)
    requires e.status == "closed" && e.id !in isolated
    ensures EdgeColor(e, mode, isolated) == Slate
  {
  }

  /** The material view's colour table, matched case-insensitively. */
  lemma MaterialTable(e: Edge, isolated: set<string>, m: string)
    requires e.status != "isolated" && e.status != "closed" && e.id !in isolated
    requires e.material == Some(m) && m != ""
    ensures Text.ToLower(m) == "iron" ==> EdgeColor(e, Material, isolated) == Red
    ensures Text.ToLower(m) == "pvc" ==> EdgeColor(e, Material, isolated) == Sky
    ensures Text.ToLower(m) == "pe" ==> EdgeColor(e, Material, isolated) == Green
    ensures Text.ToLower(m) == "copper" ==> EdgeColor(e, Material, isolated) == Amber
    ensures Text.ToLower(m) !in {"iron", "pvc", "pe", "copper"} ==> EdgeColor(e, Material, isolated) == Grey
  {
  }

  /** `"IRON"` is iron: the material comparison ignores case. */
  lemma MaterialIgnoresCase()
    ensures MaterialColor(Some("IRON")) == Red && MaterialColor(Some("Pvc")) == Sky
  {
    assert Text.ToLower("IRON") == "iron";
    assert Text.ToLower("Pvc") == "pvc";
  }

  /** A missing or empty material is grey. */
  lemma MaterialMissingIsGrey(material: Option<string>)
    requires !Truthy(material)
    ensures MaterialColor(material) == Grey
  {
  }

  /**
   * The age view on an ISO-style date `YYYY-...`: the year decides the colour
   * (before 1990 red, before 2010 yellow, otherwise green).
   */
  lemma AgeOfDatedEdge(year: nat, rest: string)
    requires rest == [] || rest[0] == '-'
    ensures AgeColor(Some(Text.DecimalText(year) + rest)) ==
              if year < 1990 then Red else if year < 2010 then Yellow else Green
  {
    var date := Text.DecimalText(year) + rest;
    assert YearText(date) == Text.DecimalText(year) by {
      BeforeOfDigits(Text.DecimalText(year), rest);
    }
    Text.ParseIntDecimal(year);
  }

  lemma {:induction false} BeforeOfDigits(ds: string, rest: string)
    requires '-' !in ds
    requires rest == [] || rest[0] == '-'
    ensures Text.Before(ds + rest, '-') == ds
  {
    if ds != [] {
      assert (ds + rest)[1..] == ds[1..] + rest;
      BeforeOfDigits(ds[1..], rest);
    }
  }

  /** A missing or empty installation date is grey; a year `parseInt` cannot read is green. */
  lemma AgeFallbacks(date: Option<string>)
    ensures !Truthy(date) ==> AgeColor(date) == Grey
    ensures Truthy(date) && Text.ParseInt(YearText(date.value)).None? ==> AgeColor(date) == Green
  {
  }

  /**
   * The `NaN` case: a date whose first character is not white space, a sign or
   * a digit (`"unknown"`, say) leaves no year to read, so the edge is green.
   */
  lemma AgeOfUnreadableYear(date: string)
    requires date != [] && !Text.IsJsWhitespace(date[0]) && date[0] != '+' && date[0] != '-'
    requires Text.DigitValue(date[0], 10).None?
    ensures AgeColor(Some(date)) == Green
  {
    var year := YearText(date);
    assert year != [] && year[0] == date[0];
    Text.ParseIntNaN(year);
  }

  /** The status view's precedence: incident flags, then a zero incident count, then the status word. */
  lemma StatusPrecedence(e: Edge, isolated: set<string>)
    requires e.status != "isolated" && e.status != "closed" && e.id !in isolated
    ensures e.hasAcknowledgedIncidents || e.hasOpenIncidents ==> EdgeColor(e, Status, isolated) == Crimson
    ensures !(e.hasAcknowledgedIncidents || e.hasOpenIncidents) && e.activeIncidentCount == Some(0) ==>
              EdgeColor(e, Status, isolated) == Sky
    ensures !(e.hasAcknowledgedIncidents || e.hasOpenIncidents) && e.activeIncidentCount != Some(0) ==>
              EdgeColor(e, Status, isolated) ==
                (if e.status == "critical" then Crimson
                 else if e.status == "high" then Orange
                 else if e.status == "medium" then Ochre
                 else if e.status == "low" then Lime
                 else Sky)
  {
  }

  /** A row-update event on the edges table, as the realtime handler reads it. */
  datatype EdgeUpdate = EdgeUpdate(id: string, name: string, status: string)

  /** The realtime handler's rule: an update to status `isolated` adds that edge's id. */
  function IsolatedAfter(isolated: set<string>, u: EdgeUpdate): (r: set<string>)
    ensures isolated <= r && r - isolated <= {u.id}
    ensures u.id in r <==> u.id in isolated || u.status == "isolated"
  {
    if u.status == "isolated" then isolated + {u.id} else isolated
  }

  function IsolatedAfterAll(isolated: set<string>, us: seq<EdgeUpdate>): set<string>
    decreases |us|
  {
    if us == [] then isolated else IsolatedAfterAll(IsolatedAfter(isolated, us[0]), us[1..])
  }

  /**
   * Over any stream of updates the set only grows, and it gains exactly the
   * ids of the updates whose new status is `isolated`.
   */
  lemma {:induction false} IsolatedAfterAllGrows(isolated: set<string>, us: seq<EdgeUpdate>)
    ensures IsolatedAfterAll(isolated, us) ==
              isolated + set i | 0 <= i < |us| && us[i].status == "isolated" :: us[i].id
    decreases |us|
  {
    if us != [] {
      IsolatedAfterAllGrows(IsolatedAfter(isolated, us[0]), us[1..]);
      var tail := set i | 0 <= i < |us[1..]| && us[1..][i].status == "isolated" :: us[1..][i].id;
      var all := set i | 0 <= i < |us| && us[i].status == "isolated" :: us[i].id;
      assert all == (if us[0].status == "isolated" then {us[0].id} else {}) + tail by {
        forall x | x in all ensures x in (if us[0].status == "isolated" then {us[0].id} else {}) + tail {
          var i :| 0 <= i < |us| && us[i].status == "isolated" && us[i].id == x;
          if i > 0 { assert us[1..][i - 1] == us[i]; }
        }
        forall x | x in tail ensures x in all {
          var i :| 0 <= i < |us[1..]| && us[1..][i].status == "isolated" && us[1..][i].id == x;
          assert us[i + 1] == us[1..][i];
        }
      }
    }
  }

  /** The network page's own state: the realtime isolated-edge set and the selected tab. */
  class NetworkPage {
    var isolatedEdges: set<string>
    var viewMode: ViewMode

    constructor ()
      ensures isolatedEdges == {} && viewMode == Status
    {
      isolatedEdges := {};
      viewMode := Status;
    }

    /** The realtime subscription's callback, with the toast left out. */
    method OnEdgeUpdate(u: EdgeUpdate)
      modifies this
      ensures isolatedEdges == IsolatedAfter(old(isolatedEdges), u)
      ensures viewMode == old(viewMode)
    {
      if u.status == "isolated" {
        isolatedEdges := isolatedEdges + {u.id};
      }
    }

    /** The view-mode tabs. */
    method SelectViewMode(mode: ViewMode)
      modifies this
      ensures viewMode == mode && isolatedEdges == old(isolatedEdges)
    {
      viewMode := mode;
    }

    /** `getEdgeColor` as the page's closure: it reads the page's current set and mode. */
    function GetEdgeColor(e: Edge): (r: string)
      reads this
      ensures e.status == "isolated" || e.id in isolatedEdges ==> r == Red
    {
      EdgeColor(e, viewMode, isolatedEdges)
    }
  }
}
