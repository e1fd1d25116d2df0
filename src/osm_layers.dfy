/**
 * The drawing half of `OSMParser`: which ways and relations go onto the road, river and
 * building bitmaps, and what is drawn for each. A bitmap is modelled by the list of drawing
 * calls made on it (`Paint`), in order; rasterising them is not modelled. A node that is
 * missing from the node dictionary, or was yielded as null, makes drawing throw (`None`).
 */
module OsmLayers {
  import opened Wrappers
  import opened Numeric
  import opened OsmReader

  /** The georeference an `OSMParser` draws with: lower-left corner, cell size, bitmap size. */
  datatype Grid = Grid(xll: real, yll: real, cellSize: real, width: int, height: int)

  /**
   * One coordinate of `ToDescrete`: the cell offset clamped to [0, size - 1], then rounded
   * half to even as `Math.Round` does.
   */
  function Descrete(v: real, corner: real, cellSize: real, size: int): (c: int)
    requires cellSize != 0.0
    ensures 0 <= c && (size >= 1 ==> c <= size - 1)
    ensures (v - corner) / cellSize <= 0.0 ==> c == 0
    ensures size >= 1 && (v - corner) / cellSize >= (size - 1) as real ==> c == size - 1
    ensures 0.0 <= (v - corner) / cellSize <= (size - 1) as real ==> Abs(c as real - (v - corner) / cellSize) <= 0.5
  {
    RoundHalfEven(MaxReal(MinReal((v - corner) / cellSize, (size - 1) as real), 0.0))
  }

  /** `Math.Round` never reverses an order. */
  lemma RoundHalfEvenMonotone(x: real, y: real)
    requires x <= y
    ensures RoundHalfEven(x) <= RoundHalfEven(y)
  {
  }

  /** With a positive cell size, a point further east (north) never lands on a smaller column (row). */
  lemma DescreteMonotone(v: real, w: real, corner: real, cellSize: real, size: int)
    requires cellSize > 0.0 && v <= w
    ensures Descrete(v, corner, cellSize, size) <= Descrete(w, corner, cellSize, size)
  {
    var a := (v - corner) / cellSize;
    var b := (w - corner) / cellSize;
    assert a <= b by {
      assert b - a == (w - v) / cellSize;
    }
    RoundHalfEvenMonotone(MaxReal(MinReal(a, (size - 1) as real), 0.0), MaxReal(MinReal(b, (size - 1) as real), 0.0));
  }

  /** `ToDescrete(nd.lon, nd.lat)`: the pixel of a node. */
  function Pixel(g: Grid, n: Node): (int, int)
    requires g.cellSize != 0.0
  {
    (Descrete(n.lon, g.xll, g.cellSize, g.width), Descrete(n.lat, g.yll, g.cellSize, g.height))
  }

  /** `nodes[ref]` followed by a field access: throws on a missing key and on a null node. */
  function Locate(nodes: map<nat, Option<Node>>, ref: nat): Option<Node>
  {
    if ref in nodes then nodes[ref] else None
  }

  predicate Resolves(nodes: map<nat, Option<Node>>, refs: seq<nat>)
  {
    forall k :: 0 <= k < |refs| ==> Locate(nodes, refs[k]).Some?
  }

  function Points(g: Grid, nodes: map<nat, Option<Node>>, refs: seq<nat>): (ps: seq<(int, int)>)
    requires g.cellSize != 0.0 && Resolves(nodes, refs)
    ensures |ps| == |refs|
  {
    seq(|refs|, k requires 0 <= k < |refs| => Pixel(g, Locate(nodes, refs[k]).value))
  }

  /** A drawing call: a white line, or a polygon filled white or black. */
  datatype Paint = Line(from: (int, int), to: (int, int)) | Polygon(points: seq<(int, int)>, white: bool)

  /** What `DrawWay` draws: a line between each pair of consecutive nodes; a one-node way draws and looks up nothing. */
  function WayLines(g: Grid, w: Way, nodes: map<nat, Option<Node>>): Option<seq<Paint>>
    requires g.cellSize != 0.0
  {
    if |w.nodes| <= 1 then Some([])
    else if !Resolves(nodes, w.nodes) then None
    else
      var ps := Points(g, nodes, w.nodes);
      Some(seq(|ps| - 1, k requires 0 <= k < |ps| - 1 => Line(ps[k], ps[k + 1])))
  }

  /** What `FillArea` draws: one polygon through every node of the way. */
  function AreaFill(g: Grid, w: Way, nodes: map<nat, Option<Node>>, white: bool): Option<Paint>
    requires g.cellSize != 0.0
  {
    if Resolves(nodes, w.nodes) then Some(Polygon(Points(g, nodes, w.nodes), white)) else None
  }

  /** A way is drawn as a connected polyline of `Count - 1` lines whose ends are pixels of the bitmap. */
  lemma WayLinesShape(g: Grid, w: Way, nodes: map<nat, Option<Node>>)
    requires g.cellSize != 0.0 && WayLines(g, w, nodes).Some?
    ensures var ls := WayLines(g, w, nodes).value;
      && |ls| == (if |w.nodes| == 0 then 0 else |w.nodes| - 1)
      && (forall k :: 0 <= k < |ls| ==> ls[k].Line?)
      && (forall k :: 0 <= k < |ls| - 1 ==> ls[k].to == ls[k + 1].from)
      && (forall k :: 0 <= k < |ls| ==> InBitmap(g, ls[k].from) && InBitmap(g, ls[k].to))
    ensures |w.nodes| >= 2 ==> Resolves(nodes, w.nodes)
  {
  }

  predicate InBitmap(g: Grid, p: (int, int))
  {
    0 <= p.0 && (g.width >= 1 ==> p.0 < g.width) && 0 <= p.1 && (g.height >= 1 ==> p.1 < g.height)
  }

  method DrawWay(g: Grid, w: Way, nodes: map<nat, Option<Node>>) returns (lines: Option<seq<Paint>>)
    requires g.cellSize != 0.0
    ensures lines == WayLines(g, w, nodes)
  {
    var out: seq<Paint> := [];
    var i := 0;
    while i < |w.nodes| - 1
      invariant 0 <= i && (i > 0 ==> i <= |w.nodes| - 1)
      invariant i > 0 ==> forall k :: 0 <= k <= i ==> Locate(nodes, w.nodes[k]).Some?
      invariant |out| == i
      invariant forall k :: 0 <= k < i ==>
        out[k] == Line(Pixel(g, Locate(nodes, w.nodes[k]).value), Pixel(g, Locate(nodes, w.nodes[k + 1]).value))
    {
      var from := Locate(nodes, w.nodes[i]);
      if from.None? {
        return None;
      }
      var to := Locate(nodes, w.nodes[i + 1]);
      if to.None? {
        return None;
      }
      out := out + [Line(Pixel(g, from.value), Pixel(g, to.value))];
      i := i + 1;
    }
    if |w.nodes| >= 2 {
      assert Resolves(nodes, w.nodes);
      ghost var ps := Points(g, nodes, w.nodes);
      assert out == seq(|ps| - 1, k requires 0 <= k < |ps| - 1 => Line(ps[k], ps[k + 1]));
    }
    return Some(out);
  }

  method FillArea(g: Grid, w: Way, nodes: map<nat, Option<Node>>, white: bool) returns (fill: Option<Paint>)
    requires g.cellSize != 0.0
    ensures fill == AreaFill(g, w, nodes, white)
  {
    var points: seq<(int, int)> := [];
    var i := 0;
    while i < |w.nodes|
      invariant 0 <= i <= |w.nodes| && |points| == i
      invariant forall k :: 0 <= k < i ==> Locate(nodes, w.nodes[k]).Some? && points[k] == Pixel(g, Locate(nodes, w.nodes[k]).value)
    {
      var nd := Locate(nodes, w.nodes[i]);
      if nd.None? {
        return None;
      }
      points := points + [Pixel(g, nd.value)];
      i := i + 1;
    }
    assert Resolves(nodes, w.nodes) && points == Points(g, nodes, w.nodes);
    return Some(Polygon(points, white));
  }

  /** Both drawings, in order, or an exception from either. */
  function Then(a: Option<seq<Paint>>, b: Option<seq<Paint>>): Option<seq<Paint>>
  {
    if a.Some? && b.Some? then Some(a.value + b.value) else None
  }

  /** The fills `DrawRelation` makes for one list of members: each member that is a known closed way. */
  function AreaFills(g: Grid, keys: seq<nat>, ways: map<nat, Way>, nodes: map<nat, Option<Node>>, white: bool): Option<seq<Paint>>
    requires g.cellSize != 0.0
    decreases |keys|
  {
    if keys == [] then Some([])
    else
      var init := AreaFills(g, keys[..|keys| - 1], ways, nodes, white);
      var key := keys[|keys| - 1];
      if key in ways && ways[key].area then
        var f := AreaFill(g, ways[key], nodes, white);
        Then(init, if f.Some? then Some([f.value]) else None)
      else init
  }

  /** What `DrawRelation` draws: the outer ways filled white, then the inner ways filled black. */
  function RelationFills(g: Grid, r: Relation, ways: map<nat, Way>, nodes: map<nat, Option<Node>>): Option<seq<Paint>>
    requires g.cellSize != 0.0
  {
    Then(AreaFills(g, r.outerWays, ways, nodes, true), AreaFills(g, r.innerWays, ways, nodes, false))
  }

  /** Every fill of one member list is a polygon of that colour, at most one per member. */
  lemma {:induction false} AreaFillsShape(g: Grid, keys: seq<nat>, ways: map<nat, Way>, nodes: map<nat, Option<Node>>, white: bool)
    requires g.cellSize != 0.0 && AreaFills(g, keys, ways, nodes, white).Some?
    ensures var fs := AreaFills(g, keys, ways, nodes, white).value;
      |fs| <= |keys| && forall k :: 0 <= k < |fs| ==> fs[k].Polygon? && fs[k].white == white
    decreases |keys|
  {
    if keys != [] {
      AreaFillsShape(g, keys[..|keys| - 1], ways, nodes, white);
    }
  }

  /** A member that is not a known closed way draws nothing. */
  lemma {:induction false} AreaFillsSkip(g: Grid, keys: seq<nat>, key: nat, ways: map<nat, Way>, nodes: map<nat, Option<Node>>, white: bool)
    requires g.cellSize != 0.0 && !(key in ways && ways[key].area)
    ensures AreaFills(g, keys + [key], ways, nodes, white) == AreaFills(g, keys, ways, nodes, white)
  {
    assert (keys + [key])[..|keys|] == keys;
  }

  /** No black (inner) fill of a relation comes before a white (outer) one, so holes stay holes. */
  lemma HolesAfterOutline(g: Grid, r: Relation, ways: map<nat, Way>, nodes: map<nat, Option<Node>>)
    requires g.cellSize != 0.0 && RelationFills(g, r, ways, nodes).Some?
    ensures var fs := RelationFills(g, r, ways, nodes).value;
      (forall k :: 0 <= k < |fs| ==> fs[k].Polygon?)
      && (forall a, b :: 0 <= a < b < |fs| && !fs[a].white ==> !fs[b].white)
      && |fs| <= |r.outerWays| + |r.innerWays|
  {
    AreaFillsShape(g, r.outerWays, ways, nodes, true);
    AreaFillsShape(g, r.innerWays, ways, nodes, false);
  }

  method DrawRelation(g: Grid, r: Relation, ways: map<nat, Way>, nodes: map<nat, Option<Node>>) returns (fills: Option<seq<Paint>>)
    requires g.cellSize != 0.0
    ensures fills == RelationFills(g, r, ways, nodes)
  {
    var outer := FillMembers(g, r.outerWays, ways, nodes, true);
    if outer.None? {
      return None;
    }
    var inner := FillMembers(g, r.innerWays, ways, nodes, false);
    if inner.None? {
      return None;
    }
    return Some(outer.value + inner.value);
  }

  /** One `foreach` of `DrawRelation`. */
  method FillMembers(g: Grid, keys: seq<nat>, ways: map<nat, Way>, nodes: map<nat, Option<Node>>, white: bool)
    returns (fills: Option<seq<Paint>>)
    requires g.cellSize != 0.0
    ensures fills == AreaFills(g, keys, ways, nodes, white)
  {
    var out: seq<Paint> := [];
    var i := 0;
    while i < |keys|
      invariant 0 <= i <= |keys| && AreaFills(g, keys[..i], ways, nodes, white) == Some(out)
    {
      assert keys[..i + 1][..i] == keys[..i];
      if keys[i] in ways && ways[keys[i]].area {
        var f := FillArea(g, ways[keys[i]], nodes, white);
        if f.None? {
          AreaFillsFailure(g, keys, i + 1, ways, nodes, white);
          return None;
        }
        out := out + [f.value];
      }
      i := i + 1;
    }
    assert keys[..i] == keys;
    return Some(out);
  }

  lemma {:induction false} AreaFillsFailure(g: Grid, keys: seq<nat>, k: nat, ways: map<nat, Way>, nodes: map<nat, Option<Node>>, white: bool)
    requires g.cellSize != 0.0 && k <= |keys| && AreaFills(g, keys[..k], ways, nodes, white).None?
    ensures AreaFills(g, keys, ways, nodes, white).None?
    decreases |keys| - k
  {
    if k < |keys| {
      assert keys[..k + 1][..k] == keys[..k];
      AreaFillsFailure(g, keys, k + 1, ways, nodes, white);
    } else {
      assert keys[..k] == keys;
    }
  }

  // ---------------------------------------------------------------------------
  // The three layers

  /** The `highway` values `ParseRoads` draws. */
  const RoadTypes: set<string> := {"motorway", "trunk", "primary", "secondary", "tertiary"}

  datatype Layer = Roads | Rivers | Buildings

  /** Whether a way goes onto a layer, by its tags alone. */
  predicate Selects(layer: Layer, r: WayRec): (selected: bool)
    ensures selected && layer == Roads ==>
      && "highway" in r.tags && r.tags["highway"] != None
      && r.tags["highway"].value in {"motorway", "trunk", "primary", "secondary", "tertiary"}
    ensures selected && layer == Rivers ==> "waterway" in r.tags
    ensures selected && layer == Buildings ==> "building" in r.tags || "amenity" in r.tags
  {
    match layer
    case Roads => "highway" in r.tags && r.tags["highway"].Some? && r.tags["highway"].value in RoadTypes
    case Rivers => "waterway" in r.tags
    case Buildings => "building" in r.tags || "amenity" in r.tags
  }

  /** How a selected way is drawn: a closed building is filled white, anything else is a polyline. */
  function DrawSelected(layer: Layer, g: Grid, w: Way, nodes: map<nat, Option<Node>>): Option<seq<Paint>>
    requires g.cellSize != 0.0
  {
    if layer == Buildings && w.area then
      var f := AreaFill(g, w, nodes, true);
      if f.Some? then Some([f.value]) else None
    else WayLines(g, w, nodes)
  }

  /** The drawing calls of a layer's `foreach` over the ways, in document order. */
  function WayPaints(layer: Layer, g: Grid, nodes: map<nat, Option<Node>>, records: seq<WayRec>): Option<seq<Paint>>
    requires g.cellSize != 0.0
    decreases |records|
  {
    if records == [] then Some([])
    else
      var init := WayPaints(layer, g, nodes, records[..|records| - 1]);
      var r := records[|records| - 1];
      if Selects(layer, r) then Then(init, DrawSelected(layer, g, r.way, nodes)) else init
  }

  function Selected(layer: Layer, records: seq<WayRec>): (s: seq<WayRec>)
    ensures |s| <= |records|
    decreases |records|
  {
    if records == [] then []
    else
      var init := Selected(layer, records[..|records| - 1]);
      var r := records[|records| - 1];
      if Selects(layer, r) then init + [r] else init
  }

  /** A way the layer does not select draws nothing and cannot make drawing throw. */
  lemma {:induction false} OnlySelectedDrawn(layer: Layer, g: Grid, nodes: map<nat, Option<Node>>, records: seq<WayRec>)
    requires g.cellSize != 0.0
    ensures WayPaints(layer, g, nodes, records) == WayPaints(layer, g, nodes, Selected(layer, records))
    ensures forall r :: r in Selected(layer, records) ==> r in records && Selects(layer, r)
    decreases |records|
  {
    if records != [] {
      var n := |records| - 1;
      var init := records[..n];
      var r := records[n];
      OnlySelectedDrawn(layer, g, nodes, init);
      var s := Selected(layer, init);
      if Selects(layer, r) {
        assert (s + [r])[..|s|] == s;
      }
    }
  }

  /** On a building, a closed way is one white polygon through its nodes and an open one a polyline. */
  lemma BuildingDrawing(g: Grid, w: Way, nodes: map<nat, Option<Node>>)
    requires g.cellSize != 0.0 && Resolves(nodes, w.nodes)
    ensures w.area ==> DrawSelected(Buildings, g, w, nodes) == Some([Polygon(Points(g, nodes, w.nodes), true)])
    ensures !w.area ==> DrawSelected(Buildings, g, w, nodes) == WayLines(g, w, nodes)
    ensures DrawSelected(Roads, g, w, nodes) == WayLines(g, w, nodes) && DrawSelected(Rivers, g, w, nodes) == WayLines(g, w, nodes)
  {
  }

  method DrawWays(layer: Layer, g: Grid, nodes: map<nat, Option<Node>>, records: seq<WayRec>) returns (paints: Option<seq<Paint>>)
    requires g.cellSize != 0.0
    ensures paints == WayPaints(layer, g, nodes, records)
  {
    var out: seq<Paint> := [];
    var i := 0;
    while i < |records|
      invariant 0 <= i <= |records| && WayPaints(layer, g, nodes, records[..i]) == Some(out)
    {
      assert records[..i + 1][..i] == records[..i];
      var r := records[i];
      if Selects(layer, r) {
        var drawn: Option<seq<Paint>>;
        if layer == Buildings && r.way.area {
          var f := FillArea(g, r.way, nodes, true);
          drawn := if f.Some? then Some([f.value]) else None;
        } else {
          drawn := DrawWay(g, r.way, nodes);
        }
        if drawn.None? {
          WayPaintsFailure(layer, g, nodes, records, i + 1);
          return None;
        }
        out := out + drawn.value;
      }
      i := i + 1;
    }
    assert records[..i] == records;
    return Some(out);
  }

  lemma {:induction false} WayPaintsFailure(layer: Layer, g: Grid, nodes: map<nat, Option<Node>>, records: seq<WayRec>, k: nat)
    requires g.cellSize != 0.0 && k <= |records| && WayPaints(layer, g, nodes, records[..k]).None?
    ensures WayPaints(layer, g, nodes, records).None?
    decreases |records| - k
  {
    if k < |records| {
      assert records[..k + 1][..k] == records[..k];
      WayPaintsFailure(layer, g, nodes, records, k + 1);
    } else {
      assert records[..k] == records;
    }
  }

  /** `ways[id] = way` over the ways section: the last way with an id wins. */
  function WayMap(records: seq<WayRec>): map<nat, Way>
    decreases |records|
  {
    if records == [] then map[]
    else WayMap(records[..|records| - 1])[records[|records| - 1].id := records[|records| - 1].way]
  }

  /** Every way id is in the map, bound to the last way with that id. */
  lemma {:induction false} WayMapLastWins(records: seq<WayRec>)
    ensures forall k :: 0 <= k < |records| ==> records[k].id in WayMap(records)
    ensures forall k :: 0 <= k < |records| && (forall m :: k < m < |records| ==> records[m].id != records[k].id) ==>
      WayMap(records)[records[k].id] == records[k].way
    decreases |records|
  {
    if records != [] {
      var n := |records| - 1;
      var init := records[..n];
      WayMapLastWins(init);
      assert forall k :: 0 <= k < n ==> init[k] == records[k];
    }
  }

  /** `water=river` on a relation's tags. */
  predicate IsRiver(tags: Tags)
  {
    "water" in tags && tags["water"] == Some("river")
  }

  /** The drawing calls of `ParseRivers`' `foreach` over relations; a relation yielded as null throws. */
  function RiverFills(g: Grid, ways: map<nat, Way>, nodes: map<nat, Option<Node>>, records: seq<RelRec>): Option<seq<Paint>>
    requires g.cellSize != 0.0
    decreases |records|
  {
    if records == [] then Some([])
    else
      var init := RiverFills(g, ways, nodes, records[..|records| - 1]);
      var r := records[|records| - 1];
      if r.body.None? then None
      else if IsRiver(r.body.value.tags) then Then(init, RelationFills(g, r.body.value.relation, ways, nodes))
      else init
  }

  method DrawRivers(g: Grid, ways: map<nat, Way>, nodes: map<nat, Option<Node>>, records: seq<RelRec>) returns (paints: Option<seq<Paint>>)
    requires g.cellSize != 0.0
    ensures paints == RiverFills(g, ways, nodes, records)
  {
    var out: seq<Paint> := [];
    var i := 0;
    while i < |records|
      invariant 0 <= i <= |records| && RiverFills(g, ways, nodes, records[..i]) == Some(out)
    {
      assert records[..i + 1][..i] == records[..i];
      var r := records[i];
      if r.body.None? {
        RiverFillsFailure(g, ways, nodes, records, i + 1);
        return None;
      }
      if IsRiver(r.body.value.tags) {
        var drawn := DrawRelation(g, r.body.value.relation, ways, nodes);
        if drawn.None? {
          RiverFillsFailure(g, ways, nodes, records, i + 1);
          return None;
        }
        out := out + drawn.value;
      }
      i := i + 1;
    }
    assert records[..i] == records;
    return Some(out);
  }

  lemma {:induction false} RiverFillsFailure(g: Grid, ways: map<nat, Way>, nodes: map<nat, Option<Node>>, records: seq<RelRec>, k: nat)
    requires g.cellSize != 0.0 && k <= |records| && RiverFills(g, ways, nodes, records[..k]).None?
    ensures RiverFills(g, ways, nodes, records).None?
    decreases |records| - k
  {
    if k < |records| {
      assert records[..k + 1][..k] == records[..k];
      RiverFillsFailure(g, ways, nodes, records, k + 1);
    } else {
      assert records[..k] == records;
    }
  }

  // ---------------------------------------------------------------------------
  // ParseRoads / ParseRivers / ParseBuildings over a whole file

  /** What `ParseAllNodes` returns on a fresh reader. */
  function NodeTable(nums: Numbers, events: seq<Event>): Option<map<nat, Option<Node>>>
  {
    var run := NodesFrom(nums, events, -1);
    if run.ok then Table(NodePairs(run.records)) else None
  }

  /** The road or building bitmap of a file: the node table, then the ways section after it. */
  function WayLayer(layer: Layer, g: Grid, nums: Numbers, events: seq<Event>): Option<seq<Paint>>
    requires g.cellSize != 0.0
  {
    var table := NodeTable(nums, events);
    if table.None? then None
    else
      var ways := WaysFrom(nums, events, NodesFrom(nums, events, -1).stop);
      if !ways.ok then None else WayPaints(layer, g, table.value, ways.records)
  }

  /** The river bitmap: the waterways, then the river relations drawn over the ways section's closed ways. */
  function RiverLayer(g: Grid, nums: Numbers, events: seq<Event>): Option<seq<Paint>>
    requires g.cellSize != 0.0
  {
    var table := NodeTable(nums, events);
    if table.None? then None
    else
      var ways := WaysFrom(nums, events, NodesFrom(nums, events, -1).stop);
      if !ways.ok then None
      else
        var relations := RelationsFrom(nums, events, ways.stop);
        if !relations.ok then None
        else Then(WayPaints(Rivers, g, table.value, ways.records), RiverFills(g, WayMap(ways.records), table.value, relations.records))
  }

  method ParseRoads(g: Grid, nums: Numbers, events: seq<Event>) returns (paints: Option<seq<Paint>>)
    requires g.cellSize != 0.0
    ensures paints == WayLayer(Roads, g, nums, events)
  {
    paints := ParseWayLayer(Roads, g, nums, events);
  }

  method ParseBuildings(g: Grid, nums: Numbers, events: seq<Event>) returns (paints: Option<seq<Paint>>)
    requires g.cellSize != 0.0
    ensures paints == WayLayer(Buildings, g, nums, events)
  {
    paints := ParseWayLayer(Buildings, g, nums, events);
  }

  /** The shared body of `ParseRoads` and `ParseBuildings`: a fresh reader, all nodes, then the ways. */
  method ParseWayLayer(layer: Layer, g: Grid, nums: Numbers, events: seq<Event>) returns (paints: Option<seq<Paint>>)
    requires g.cellSize != 0.0
    ensures paints == WayLayer(layer, g, nums, events)
  {
    var reader := new XmlReader(events);
    var nodes := ParseAllNodes(nums, reader);
    if nodes.None? {
      return None;
    }
    var ways, ok := ParseWays(nums, reader);
    if !ok {
      return None;
    }
    paints := DrawWays(layer, g, nodes.value, ways);
  }

  method ParseRivers(g: Grid, nums: Numbers, events: seq<Event>) returns (paints: Option<seq<Paint>>)
    requires g.cellSize != 0.0
    ensures paints == RiverLayer(g, nums, events)
  {
    var reader := new XmlReader(events);
    var nodes := ParseAllNodes(nums, reader);
    if nodes.None? {
      return None;
    }
    var ways, ok := ParseWays(nums, reader);
    if !ok {
      return None;
    }
    var lines := DrawWays(Rivers, g, nodes.value, ways);
    var byId := CollectWays(ways);
    var relations, relationsOk := ParseRelations(nums, reader);
    if !relationsOk {
      return None;
    }
    var fills := DrawRivers(g, byId, nodes.value, relations);
    paints := Then(lines, fills);
  }

  /** The `ways[id] = way` statements of `ParseRivers`' first `foreach`. */
  method CollectWays(records: seq<WayRec>) returns (ways: map<nat, Way>)
    ensures ways == WayMap(records)
  {
    ways := map[];
    var i := 0;
    while i < |records|
      invariant 0 <= i <= |records| && ways == WayMap(records[..i])
    {
      assert records[..i + 1][..i] == records[..i];
      ways := ways[records[i].id := records[i].way];
      i := i + 1;
    }
    assert records[..i] == records;
  }

  /** A road is drawn iff its `highway` tag is one of the five road types; other tags never matter. */
  lemma RoadSelection(r: WayRec, v: string)
    requires "highway" in r.tags && r.tags["highway"] == Some(v)
    ensures Selects(Roads, r) <==> v in {"motorway", "trunk", "primary", "secondary", "tertiary"}
  {
  }
}
