/**
 * The map component: what each node marker and edge polyline carries, the
 * registries `markersRef` / `polylinesRef` that every render pass clears and
 * refills, and the guards around the lazily loaded mapping library.
 * The drawing library itself is abstracted: a layer is the value it is drawn from.
 * The component's `getNodePosition` and `getEdgeColor` props are fixed to the
 * network page's closures, its only caller: `Network.NodePosition` over the
 * page's nodes and `Network.EdgeColor` with the page's view mode and isolated set.
 */
module NetworkMap {
  import opened Wrappers
  import opened Network
  import opened KeyedMaps

  /** Fill colour of a node marker by node type. */
  function NodeColor(nodeType: string): (r: string)
    ensures r == Green <==> nodeType == "tank"
    ensures r == Sky <==> nodeType == "reservoir"
    ensures r == Amber <==> nodeType != "tank" && nodeType != "reservoir"
  {
    if nodeType == "tank" then Green else if nodeType == "reservoir" then Sky else Amber
  }

  /** The pressure line of a node popup is shown only for a truthy pressure: neither `null` nor `0`. */
  function PressureLine(pressure: Option<real>): (r: Option<real>)
    ensures r.Some? <==> pressure.Some? && pressure.value != 0.0
    ensures r.Some? ==> r == pressure
  {
    if pressure.Some? && pressure.value != 0.0 then pressure else None
  }

  datatype NodePopup = NodePopup(name: string, nodeType: string, pressure: Option<real>)
  datatype Marker = Marker(x: real, y: real, fillColor: string, popup: NodePopup)

  function MarkerFor(n: Node): (r: Marker)
    ensures r.x == n.x && r.y == n.y && r.fillColor == NodeColor(n.nodeType)
    ensures r.popup.name == n.name && r.popup.nodeType == n.nodeType
    ensures r.popup.pressure == PressureLine(n.pressure)
  {
    Marker(n.x, n.y, NodeColor(n.nodeType), NodePopup(n.name, n.nodeType, PressureLine(n.pressure)))
  }

  /** The mode-dependent part of an edge popup. */
  datatype Detail = MaterialDetail(material: string) | InstalledDetail(date: string) | StatusBadge(status: string)

  /** An edge popup: the name, the mode's detail, and the `material • year` footer when there is a material. */
  datatype EdgePopup = EdgePopup(name: string, detail: Detail, footer: Option<(string, string)>)

  datatype Polyline = Polyline(from: (real, real), to: (real, real), color: string, dashed: bool, popup: EdgePopup)

  function PopupDetail(e: Edge, mode: ViewMode): (r: Detail)
    ensures mode == Material <==> r.MaterialDetail?
    ensures mode == Age <==> r.InstalledDetail?
    ensures mode == Status <==> r.StatusBadge?
    ensures r.MaterialDetail? ==> r.material == if Truthy(e.material) then e.material.value else "Unknown"
    ensures r.InstalledDetail? ==> r.date == if Truthy(e.installationDate) then e.installationDate.value else "Unknown"
    ensures r.StatusBadge? ==> r.status == e.status
  {
    match mode
    case Material => MaterialDetail(if Truthy(e.material) then e.material.value else "Unknown")
    case Age => InstalledDetail(if Truthy(e.installationDate) then e.installationDate.value else "Unknown")
    case Status => StatusBadge(e.status)
  }

  /** The footer's year: the text before the first `-` of the date, or `?` when that is absent or empty. */
  function FooterYear(date: Option<string>): (r: string)
    ensures r != ""
    ensures date.Some? && YearText(date.value) != "" ==> r == YearText(date.value)
    ensures !(date.Some? && YearText(date.value) != "") ==> r == "?"
    ensures r == "?" || '-' !in r
  {
    if date.Some? && YearText(date.value) != "" then YearText(date.value) else "?"
  }

  function PopupFor(e: Edge, mode: ViewMode): (r: EdgePopup)
    ensures r.name == e.name && r.detail == PopupDetail(e, mode)
    ensures r.footer.Some? <==> Truthy(e.material)
    ensures r.footer.Some? ==> r.footer.value == (e.material.value, FooterYear(e.installationDate))
  {
    EdgePopup(e.name, PopupDetail(e, mode),
              if Truthy(e.material) then Some((e.material.value, FooterYear(e.installationDate))) else None)
  }

  /** The dash pattern "10, 10" is used for an isolated status or acknowledged incidents. */
  predicate Dashed(e: Edge) {
    e.status == "isolated" || e.hasAcknowledgedIncidents
  }

  function PolylineFor(e: Edge, from: (real, real), to: (real, real), mode: ViewMode, isolated: set<string>): (r: Polyline)
    ensures r.from == from && r.to == to
    ensures r.color == EdgeColor(e, mode, isolated)
    ensures r.dashed <==> e.status == "isolated" || e.hasAcknowledgedIncidents
    ensures r.popup == PopupFor(e, mode)
  {
    Polyline(from, to, EdgeColor(e, mode, isolated), Dashed(e), PopupFor(e, mode))
  }

  /** Membership in the realtime isolated set makes a polyline red but does not dash it. */
  lemma IsolatedSetAloneDoesNotDash(e: Edge, from: (real, real), to: (real, real), mode: ViewMode, isolated: set<string>)
    requires e.id in isolated && e.status != "isolated" && !e.hasAcknowledgedIncidents
    ensures PolylineFor(e, from, to, mode, isolated).color == Red
    ensures !PolylineFor(e, from, to, mode, isolated).dashed
  {
  }

  /** The footer's year agrees with the age colour: when it is not `?` it is the very text the age rule parses. */
  lemma FooterYearIsAgeYear(e: Edge)
    requires Truthy(e.installationDate) && FooterYear(e.installationDate) != "?"
    ensures AgeColor(e.installationDate) ==
              match Text.ParseInt(FooterYear(e.installationDate))
              case None => Green
              case Some(y) => if y < 1990 then Red else if y < 2010 then Yellow else Green
  {
  }

  /** The node pass's entries: every node registers its marker under its id. */
  function NodeEntry(n: Node): Option<(string, Marker)> {
    Some((n.id, MarkerFor(n)))
  }

  function NodeEntries(nodes: seq<Node>): (r: seq<Option<(string, Marker)>>)
    ensures |r| == |nodes| && forall i :: 0 <= i < |nodes| ==> r[i] == NodeEntry(nodes[i])
  {
    seq(|nodes|, i requires 0 <= i < |nodes| => NodeEntry(nodes[i]))
  }

  /** The registry a node pass leaves. */
  function NodeRegistry(nodes: seq<Node>): map<string, Marker> {
    Registered(NodeEntries(nodes))
  }

  /**
   * After a node pass the registry's keys are exactly the node ids, and a
   * duplicate id holds the marker of the last node with that id.
   */
  lemma NodeRegistryContents(nodes: seq<Node>, id: string)
    ensures id in NodeRegistry(nodes) <==> exists i :: 0 <= i < |nodes| && nodes[i].id == id
    ensures id in NodeRegistry(nodes) ==>
              exists i :: 0 <= i < |nodes| && nodes[i].id == id && NodeRegistry(nodes)[id] == MarkerFor(nodes[i])
                       && forall j :: i < j < |nodes| ==> nodes[j].id != id
  {
    var entries := NodeEntries(nodes);
    RegisteredKeys(entries, id);
    if exists i :: 0 <= i < |nodes| && nodes[i].id == id {
      var i :| 0 <= i < |nodes| && nodes[i].id == id;
      assert SetsKey(entries, i, id);
    }
    if id in NodeRegistry(nodes) {
      RegisteredLastWins(entries, id);
      var i :| LastSetting(entries, i, id) && Registered(entries)[id] == entries[i].value.1;
      forall j | i < j < |nodes| ensures nodes[j].id != id {
        assert !SetsKey(entries, j, id);
      }
    }
  }

  /** Both ends of the edge resolve to a node position. */
  predicate Resolves(e: Edge, nodes: seq<Node>) {
    NodePosition(nodes, e.fromNodeId).Some? && NodePosition(nodes, e.toNodeId).Some?
  }

  /** The polyline drawn for an edge whose ends resolve. */
  function EdgePolyline(e: Edge, nodes: seq<Node>, mode: ViewMode, isolated: set<string>): Polyline
    requires Resolves(e, nodes)
  {
    PolylineFor(e, NodePosition(nodes, e.fromNodeId).value, NodePosition(nodes, e.toNodeId).value, mode, isolated)
  }

  /** The edge pass's entries: an edge registers its polyline only when both its ends resolve. */
  function EdgeEntry(e: Edge, nodes: seq<Node>, mode: ViewMode, isolated: set<string>): Option<(string, Polyline)> {
    if Resolves(e, nodes) then Some((e.id, EdgePolyline(e, nodes, mode, isolated))) else None
  }

  function EdgeEntries(edges: seq<Edge>, nodes: seq<Node>, mode: ViewMode, isolated: set<string>): (r: seq<Option<(string, Polyline)>>)
    ensures |r| == |edges| && forall i :: 0 <= i < |edges| ==> r[i] == EdgeEntry(edges[i], nodes, mode, isolated)
  {
    seq(|edges|, i requires 0 <= i < |edges| => EdgeEntry(edges[i], nodes, mode, isolated))
  }

  /** One more node registers its marker under its id, over what the earlier nodes registered. */
  lemma NodeRegistrySnoc(ns: seq<Node>, i: nat)
    requires i < |ns|
    ensures Registered(NodeEntries(ns[..i + 1])) == Registered(NodeEntries(ns[..i]))[ns[i].id := MarkerFor(ns[i])]
  {
    var a := NodeEntries(ns[..i + 1]);
    var b := NodeEntries(ns[..i]);
    forall k | 0 <= k < i ensures a[k] == b[k] {
      assert ns[..i + 1][k] == ns[..i][k];
    }
    assert a[..i] == b;
    assert a[i] == Some((ns[i].id, MarkerFor(ns[i])));
  }

  lemma EdgeEntriesSnoc(es: seq<Edge>, i: nat, nodes: seq<Node>, mode: ViewMode, isolated: set<string>)
    requires i < |es|
    ensures EdgeEntries(es[..i + 1], nodes, mode, isolated) ==
              EdgeEntries(es[..i], nodes, mode, isolated) + [EdgeEntry(es[i], nodes, mode, isolated)]
  {
    var a := EdgeEntries(es[..i + 1], nodes, mode, isolated);
    var b := EdgeEntries(es[..i], nodes, mode, isolated) + [EdgeEntry(es[i], nodes, mode, isolated)];
    var c := EdgeEntries(es[..i], nodes, mode, isolated);
    assert |a| == |b| == i + 1;
    forall k | 0 <= k < i ensures a[k] == b[k] {
      assert es[..i + 1][k] == es[..i][k];
      assert b[k] == c[k];
    }
    assert es[..i + 1][i] == es[i];
  }

  /** One more edge registers its polyline over what the earlier edges registered, when both its ends resolve. */
  lemma EdgeRegistrySnoc(es: seq<Edge>, i: nat, nodes: seq<Node>, mode: ViewMode, isolated: set<string>)
    requires i < |es|
    ensures Registered(EdgeEntries(es[..i + 1], nodes, mode, isolated)) ==
              var before := Registered(EdgeEntries(es[..i], nodes, mode, isolated));
              if Resolves(es[i], nodes) then before[es[i].id := EdgePolyline(es[i], nodes, mode, isolated)] else before
  {
    EdgeEntriesSnoc(es, i, nodes, mode, isolated);
    var a := EdgeEntries(es[..i + 1], nodes, mode, isolated);
    assert a[..i] == EdgeEntries(es[..i], nodes, mode, isolated);
    assert a[i] == EdgeEntry(es[i], nodes, mode, isolated);
  }

  /** The registry an edge pass leaves. */
  function EdgeRegistry(edges: seq<Edge>, nodes: seq<Node>, mode: ViewMode, isolated: set<string>): map<string, Polyline> {
    Registered(EdgeEntries(edges, nodes, mode, isolated))
  }

  /**
   * After an edge pass an id is registered exactly when some edge with that id
   * has both ends resolved, and it holds the polyline of the last such edge.
   */
  lemma EdgeRegistryContents(edges: seq<Edge>, nodes: seq<Node>, mode: ViewMode, isolated: set<string>, id: string)
    ensures id in EdgeRegistry(edges, nodes, mode, isolated) <==>
              exists i :: 0 <= i < |edges| && edges[i].id == id && Resolves(edges[i], nodes)
    ensures id in EdgeRegistry(edges, nodes, mode, isolated) ==>
              exists i :: 0 <= i < |edges| && edges[i].id == id && Resolves(edges[i], nodes)
                       && EdgeRegistry(edges, nodes, mode, isolated)[id] == EdgePolyline(edges[i], nodes, mode, isolated)
                       && forall j :: i < j < |edges| && Resolves(edges[j], nodes) ==> edges[j].id != id
  {
    EdgeRegistryKeys(edges, nodes, mode, isolated, id);
    if id in EdgeRegistry(edges, nodes, mode, isolated) {
      EdgeRegistryLast(edges, nodes, mode, isolated, id);
    }
  }

  /** Entry `i` of an edge pass sets `id` exactly when edge `i` has that id and both its ends resolve. */
  lemma EdgeEntrySetsKey(edges: seq<Edge>, nodes: seq<Node>, mode: ViewMode, isolated: set<string>, i: int, id: string)
    requires 0 <= i < |edges|
    ensures SetsKey(EdgeEntries(edges, nodes, mode, isolated), i, id) <==> edges[i].id == id && Resolves(edges[i], nodes)
  {
    assert EdgeEntries(edges, nodes, mode, isolated)[i] == EdgeEntry(edges[i], nodes, mode, isolated);
  }

  lemma EdgeRegistryKeys(edges: seq<Edge>, nodes: seq<Node>, mode: ViewMode, isolated: set<string>, id: string)
    ensures id in EdgeRegistry(edges, nodes, mode, isolated) <==>
              exists i :: 0 <= i < |edges| && edges[i].id == id && Resolves(edges[i], nodes)
  {
    var entries := EdgeEntries(edges, nodes, mode, isolated);
    RegisteredKeys(entries, id);
    if exists i :: 0 <= i < |edges| && edges[i].id == id && Resolves(edges[i], nodes) {
      var i :| 0 <= i < |edges| && edges[i].id == id && Resolves(edges[i], nodes);
      EdgeEntrySetsKey(edges, nodes, mode, isolated, i, id);
    }
    if exists i :: SetsKey(entries, i, id) {
      var i :| SetsKey(entries, i, id);
      EdgeEntrySetsKey(edges, nodes, mode, isolated, i, id);
    }
  }

  lemma EdgeRegistryLast(edges: seq<Edge>, nodes: seq<Node>, mode: ViewMode, isolated: set<string>, id: string)
    requires id in EdgeRegistry(edges, nodes, mode, isolated)
    ensures exists i :: 0 <= i < |edges| && edges[i].id == id && Resolves(edges[i], nodes)
                       && EdgeRegistry(edges, nodes, mode, isolated)[id] == EdgePolyline(edges[i], nodes, mode, isolated)
                       && forall j :: i < j < |edges| && Resolves(edges[j], nodes) ==> edges[j].id != id
  {
    var entries := EdgeEntries(edges, nodes, mode, isolated);
    RegisteredLastWins(entries, id);
    var i :| LastSetting(entries, i, id) && Registered(entries)[id] == entries[i].value.1;
    assert entries[i] == EdgeEntry(edges[i], nodes, mode, isolated);
    forall j | i < j < |edges| && Resolves(edges[j], nodes) ensures edges[j].id != id {
      EdgeEntrySetsKey(edges, nodes, mode, isolated, j, id);
    }
  }

  /** An opaque handle on the loaded mapping library. */
  datatype LeafletHandle = LeafletHandle(token: nat)

  /** The module-level `Leaflet` variable: one per process, shared by every mounted map. */
  class LeafletSlot {
    var leaflet: Option<LeafletHandle>
    ghost var imports: nat

    ghost predicate Valid()
      reads this
    {
      imports <= 1 && (leaflet.Some? <==> imports == 1)
    }

    constructor ()
      ensures Valid() && leaflet == None && imports == 0
    {
      leaflet := None;
      imports := 0;
    }
  }

  /** One mounted map component: its library handle, its map, and its two layer registries. */
  class MapView {
    var lib: Option<LeafletHandle>
    var hasMap: bool
    var markers: map<string, Marker>
    var polylines: map<string, Polyline>

    constructor ()
      ensures lib == None && !hasMap && markers == map[] && polylines == map[]
    {
      lib := None;
      hasMap := false;
      markers := map[];
      polylines := map[];
    }

    /**
     * The load effect. The library is imported only when there is a window and
     * no earlier mount has loaded it; otherwise the shared handle is reused.
     * `imported` is what the dynamic import resolves to.
     */
    method LoadLibrary(slot: LeafletSlot, windowDefined: bool, imported: LeafletHandle)
      requires slot.Valid()
      modifies this, slot
      ensures slot.Valid()
      ensures old(slot.leaflet).Some? ==>
                slot.leaflet == old(slot.leaflet) && slot.imports == old(slot.imports) && lib == slot.leaflet
      ensures old(slot.leaflet).None? && windowDefined ==>
                slot.leaflet == Some(imported) && slot.imports == 1 && lib == Some(imported)
      ensures old(slot.leaflet).None? && !windowDefined ==>
                slot.leaflet == None && slot.imports == old(slot.imports) && lib == old(lib)
      ensures hasMap == old(hasMap) && markers == old(markers) && polylines == old(polylines)
    {
      if !windowDefined || slot.leaflet.Some? {
        if slot.leaflet.Some? {
          lib := slot.leaflet;
        }
        return;
      }
      slot.leaflet := Some(imported);
      slot.imports := slot.imports + 1;
      lib := slot.leaflet;
    }

    /** The map-creation effect: a map is created only when the library and container are there and none exists. */
    method CreateMap(containerReady: bool)
      modifies this
      ensures hasMap == (old(hasMap) || (lib.Some? && containerReady))
      ensures lib == old(lib) && markers == old(markers) && polylines == old(polylines)
    {
      if lib.None? || !containerReady || hasMap {
        return;
      }
      hasMap := true;
    }

    /** The map-creation effect's cleanup: the map is removed and forgotten. */
    method RemoveMap()
      modifies this
      ensures !hasMap
      ensures lib == old(lib) && markers == old(markers) && polylines == old(polylines)
    {
      hasMap := false;
    }

    /** The node pass: with library, map and nodes present, clear the markers and register one per node. */
    method RenderNodes(nodes: Option<seq<Node>>)
      modifies this
      ensures lib.None? || !hasMap || nodes.None? ==> markers == old(markers)
      ensures lib.Some? && hasMap && nodes.Some? ==> markers == NodeRegistry(nodes.value)
      ensures lib == old(lib) && hasMap == old(hasMap) && polylines == old(polylines)
    {
      if lib.None? || !hasMap || nodes.None? {
        return;
      }
      var ns := nodes.value;
      markers := map[];
      var i := 0;
      while i < |ns|
        invariant 0 <= i <= |ns|
        invariant markers == Registered(NodeEntries(ns[..i]))
        invariant lib == old(lib) && hasMap == old(hasMap) && polylines == old(polylines)
      {
        NodeRegistrySnoc(ns, i);
        markers := markers[ns[i].id := MarkerFor(ns[i])];
        i := i + 1;
      }
      assert ns[..|ns|] == ns;
    }

    /**
     * The edge pass: with library, map and edges present, clear the polylines and
     * register one per edge whose ends both resolve among `nodes`.
     */
    method RenderEdges(edges: Option<seq<Edge>>, nodes: seq<Node>, mode: ViewMode, isolated: set<string>)
      modifies this
      ensures lib.None? || !hasMap || edges.None? ==> polylines == old(polylines)
      ensures lib.Some? && hasMap && edges.Some? ==> polylines == EdgeRegistry(edges.value, nodes, mode, isolated)
      ensures lib == old(lib) && hasMap == old(hasMap) && markers == old(markers)
    {
      if lib.None? || !hasMap || edges.None? {
        return;
      }
      var es := edges.value;
      polylines := map[];
      var i := 0;
      while i < |es|
        invariant 0 <= i <= |es|
        invariant polylines == Registered(EdgeEntries(es[..i], nodes, mode, isolated))
        invariant lib == old(lib) && hasMap == old(hasMap) && markers == old(markers)
      {
        EdgeRegistrySnoc(es, i, nodes, mode, isolated);
        var e := es[i];
        var from := NodePosition(nodes, e.fromNodeId);
        var to := NodePosition(nodes, e.toNodeId);
        if from.Some? && to.Some? {
          var color := EdgeColor(e, mode, isolated);
          var dashed := e.status == "isolated" || e.hasAcknowledgedIncidents;
          var line := Polyline(from.value, to.value, color, dashed, PopupFor(e, mode));
          assert line == EdgePolyline(e, nodes, mode, isolated);
          polylines := polylines[e.id := line];
        }
        i := i + 1;
      }
      assert es[..|es|] == es;
    }
  }

  /** A second mount reuses the library the first one loaded, and nothing is imported twice. */
  method TwoMounts(first: LeafletHandle, second: LeafletHandle) returns (a: Option<LeafletHandle>, b: Option<LeafletHandle>, ghost imports: nat)
    ensures a == Some(first) && b == Some(first) && imports == 1
  {
    var slot := new LeafletSlot();
    var m1 := new MapView();
    m1.LoadLibrary(slot, true, first);
    var m2 := new MapView();
    m2.LoadLibrary(slot, true, second);
    a, b := m1.lib, m2.lib;
    imports := slot.imports;
  }
}
