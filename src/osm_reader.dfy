/**
 * The record-assembling half of `OSMParser`: `ParseNodes`, `ParseWays` and `ParseRelations`
 * walk an `XmlReader` over an OpenStreetMap XML file, keep the record being assembled in
 * local variables, and yield each record at its end tag. `ParseAllNodes` and `ParseAllWays`
 * collect the yielded records into dictionaries.
 *
 * The reader is a sequence of events with a cursor. An exception (a missing or malformed
 * attribute, a repeated dictionary key, a null record) ends a run with `ok == false`; the
 * records yielded before it are kept, as a consumer of the iterator would have seen them.
 */
module OsmReader {
  import opened Wrappers

  /** One node of the XML stream: a start element with its attributes, an end tag, or anything else. */
  datatype Event =
    | Element(name: string, attrs: map<string, string>, isEmpty: bool)
    | EndElement(name: string)
    | Other

  predicate IsStart(e: Event, name: string)
  {
    e.Element? && e.name == name
  }

  predicate IsEnd(e: Event, name: string)
  {
    e.EndElement? && e.name == name
  }

  /** `reader.GetAttribute(key)`: `None` stands for `null`. */
  function Attr(e: Event, key: string): Option<string>
  {
    if e.Element? && key in e.attrs then Some(e.attrs[key]) else None
  }

  /** `ulong.Parse` and `float.Parse`; both throw on `null`, which `None` stands for. */
  datatype Numbers = Numbers(toId: string -> Option<nat>, toReal: string -> Option<real>)

  function ParseId(nums: Numbers, s: Option<string>): Option<nat>
  {
    if s.Some? then nums.toId(s.value) else None
  }

  function ParseReal(nums: Numbers, s: Option<string>): Option<real>
  {
    if s.Some? then nums.toReal(s.value) else None
  }

  /** A tag dictionary; a `tag` without `v` stores `null`. */
  type Tags = map<string, Option<string>>

  /** `tags.Add(k, v)` for a `tag` element: throws on a missing or repeated key. */
  function AddTag(tags: Tags, e: Event): (added: Option<Tags>)
    ensures added.Some? <==> Attr(e, "k").Some? && Attr(e, "k").value !in tags
    ensures added.Some? ==>
      && added.value.Keys == tags.Keys + {Attr(e, "k").value}
      && added.value[Attr(e, "k").value] == Attr(e, "v")
      && forall key :: key in tags ==> added.value[key] == tags[key]
  {
    var k := Attr(e, "k");
    if k.None? || k.value in tags then None else Some(tags[k.value := Attr(e, "v")])
  }

  /** The cursor of an `XmlReader` over a whole file: -1 before the first `Read`, `|events|` at the end. */
  class XmlReader {
    const events: seq<Event>
    var pos: int

    constructor (events: seq<Event>)
      ensures this.events == events && pos == -1
    {
      this.events := events;
      pos := -1;
    }

    predicate Valid()
      reads this
    {
      -1 <= pos <= |events|
    }

    /** The node the reader is on; before the first `Read` and at the end it is neither element nor end tag. */
    function Current(): Event
      reads this
    {
      if 0 <= pos < |events| then events[pos] else Other
    }

    /** `reader.Read()`: advances to the next node, or reports the end of the file and stays there. */
    method Read() returns (more: bool)
      requires Valid()
      modifies this
      ensures Valid() && pos == Next(old(pos), |events|)
      ensures more <==> pos < |events|
    {
      if pos < |events| {
        pos := pos + 1;
      }
      more := pos < |events|;
    }
  }

  /** The index the next `Read` moves to. */
  function Next(p: int, n: nat): nat
    requires -1 <= p <= n
  {
    if p < n then p + 1 else n
  }

  /** What an iterator produced before it ended: the records, whether it ended without an exception, and where the reader stopped. */
  datatype Run<T> = Run(records: seq<T>, ok: bool, stop: nat)

  /** Put the records of one event in front of the run of the rest. */
  function Prepend<T>(out: seq<T>, rest: Run<T>): Run<T>
  {
    Run(out + rest.records, rest.ok, rest.stop)
  }

  lemma PrependPrepend<T>(a: seq<T>, b: seq<T>, r: Run<T>)
    ensures Prepend(a, Prepend(b, r)) == Prepend(a + b, r)
  {
    assert a + (b + r.records) == (a + b) + r.records;
  }

  // ---------------------------------------------------------------------------
  // ParseNodes

  datatype Node = Node(lat: real, lon: real)

  datatype NodeBody = NodeBody(node: Node, tags: Tags)

  /** The locals `id`, `nd` and `tags` of `ParseNodes` (`nd` and `tags` are null together), which is also what it yields. */
  datatype NodeRec = NodeRec(id: nat, body: Option<NodeBody>)

  /** A `node` start element: parse `id`, `lat` and `lon`, with no tags yet. */
  function OpenNode(nums: Numbers, e: Event): Option<NodeRec>
  {
    var id := ParseId(nums, Attr(e, "id"));
    var lat := ParseReal(nums, Attr(e, "lat"));
    var lon := ParseReal(nums, Attr(e, "lon"));
    if id.Some? && lat.Some? && lon.Some? then Some(NodeRec(id.value, Some(NodeBody(Node(lat.value, lon.value), map[]))))
    else None
  }

  /** One event of the `ParseNodes` loop other than the `way` that ends it: the new locals and what is yielded. */
  function NodeStep(nums: Numbers, st: NodeRec, e: Event): Option<(NodeRec, seq<NodeRec>)>
  {
    if IsEnd(e, "node") then Some((NodeRec(st.id, None), [st]))
    else if IsStart(e, "node") then
      var o := OpenNode(nums, e);
      if o.None? then None else Some((o.value, if e.isEmpty then [o.value] else []))
    else if IsStart(e, "tag") && st.body.Some? then
      var t := AddTag(st.body.value.tags, e);
      if t.None? then None else Some((NodeRec(st.id, Some(st.body.value.(tags := t.value))), []))
    else Some((st, []))
  }

  /** The loop of `ParseNodes` from event `i` on: it stops before the first `way` element. */
  function NodesRun(nums: Numbers, events: seq<Event>, i: nat, st: NodeRec): (r: Run<NodeRec>)
    requires i <= |events|
    ensures i <= r.stop <= |events|
    decreases |events| - i
  {
    if i == |events| || IsStart(events[i], "way") then Run([], true, i)
    else
      var step := NodeStep(nums, st, events[i]);
      if step.None? then Run([], false, i)
      else Prepend(step.value.1, NodesRun(nums, events, i + 1, step.value.0))
  }

  lemma NodesRunStop(nums: Numbers, events: seq<Event>, i: nat, st: NodeRec)
    requires i <= |events| && (i == |events| || IsStart(events[i], "way"))
    ensures NodesRun(nums, events, i, st) == Run([], true, i)
  {
  }

  lemma NodesRunThrow(nums: Numbers, events: seq<Event>, i: nat, st: NodeRec)
    requires i < |events| && !IsStart(events[i], "way") && NodeStep(nums, st, events[i]).None?
    ensures NodesRun(nums, events, i, st) == Run([], false, i)
  {
  }

  lemma NodesRunStep(nums: Numbers, events: seq<Event>, i: nat, st: NodeRec, next: NodeRec, out: seq<NodeRec>)
    requires i < |events| && !IsStart(events[i], "way") && NodeStep(nums, st, events[i]) == Some((next, out))
    ensures NodesRun(nums, events, i, st) == Prepend(out, NodesRun(nums, events, i + 1, next))
  {
  }

  /** `ParseNodes(reader)` with the reader at `p`: a `node` under the cursor opens the first record, unyielded. */
  function NodesFrom(nums: Numbers, events: seq<Event>, p: int): (r: Run<NodeRec>)
    requires -1 <= p <= |events|
    ensures r.stop <= |events|
  {
    if 0 <= p < |events| && IsStart(events[p], "node") then
      var o := OpenNode(nums, events[p]);
      if o.None? then Run([], false, p) else NodesRun(nums, events, p + 1, o.value)
    else NodesRun(nums, events, Next(p, |events|), NodeRec(0, None))
  }

  method ParseNodes(nums: Numbers, reader: XmlReader) returns (records: seq<NodeRec>, ok: bool)
    requires reader.Valid()
    modifies reader
    ensures reader.Valid() && 0 <= reader.pos && Run(records, ok, reader.pos as nat) == NodesFrom(nums, reader.events, old(reader.pos))
  {
    var events := reader.events;
    var st := NodeRec(0, None);
    var start := reader.Current();
    if IsStart(start, "node") {
      var o := OpenNode(nums, start);
      if o.None? {
        return [], false;
      }
      st := o.value;
    }
    ghost var whole := NodesFrom(nums, events, reader.pos);
    records := [];
    assert whole == Prepend(records, NodesRun(nums, events, Next(reader.pos, |events|), st));
    while true
      invariant reader.Valid() && reader.events == events
      invariant whole == Prepend(records, NodesRun(nums, events, Next(reader.pos, |events|), st))
      decreases |events| - reader.pos
    {
      var done;
      done, records, st, ok := NodesPass(nums, reader, records, st, whole);
      if done {
        return;
      }
    }
  }

  /** One pass of the `ParseNodes` loop: read the next node and handle it; `done` when the loop ends. */
  method NodesPass(nums: Numbers, reader: XmlReader, records: seq<NodeRec>, st: NodeRec, ghost whole: Run<NodeRec>)
    returns (done: bool, records': seq<NodeRec>, st': NodeRec, ok: bool)
    requires reader.Valid()
    requires whole == Prepend(records, NodesRun(nums, reader.events, Next(reader.pos, |reader.events|), st))
    modifies reader
    ensures reader.Valid() && reader.pos == Next(old(reader.pos), |reader.events|)
    ensures done ==> Run(records', ok, reader.pos as nat) == whole
    ensures !done ==> reader.pos < |reader.events| && whole == Prepend(records', NodesRun(nums, reader.events, Next(reader.pos, |reader.events|), st'))
  {
    var more := reader.Read();
    ghost var i := reader.pos;
    if !more {
      NodesRunStop(nums, reader.events, i, st);
      return true, records, st, true;
    }
    var e := reader.Current();
    if IsStart(e, "way") {
      NodesRunStop(nums, reader.events, i, st);
      return true, records, st, true;
    }
    var next, out, stepOk := NodeEvent(nums, st, e);
    if !stepOk {
      NodesRunThrow(nums, reader.events, i, st);
      return true, records, st, false;
    }
    NodesRunStep(nums, reader.events, i, st, next, out);
    PrependPrepend(records, out, NodesRun(nums, reader.events, i + 1, next));
    return false, records + out, next, true;
  }

  /** The body of the `ParseNodes` loop for one event: the new locals, the records yielded, and whether it threw. */
  method NodeEvent(nums: Numbers, st: NodeRec, e: Event) returns (next: NodeRec, out: seq<NodeRec>, ok: bool)
    ensures ok <==> NodeStep(nums, st, e).Some?
    ensures ok ==> NodeStep(nums, st, e) == Some((next, out))
  {
    var id, body := st.id, st.body;
    out := [];
    if IsEnd(e, "node") {
      out := [NodeRec(id, body)];
      body := None;
    } else if IsStart(e, "node") {
      var o := OpenNode(nums, e);
      if o.None? {
        return st, [], false;
      }
      id, body := o.value.id, o.value.body;
      if e.isEmpty {
        out := [NodeRec(id, body)];
      }
    } else if IsStart(e, "tag") && body.Some? {
      var t := AddTag(body.value.tags, e);
      if t.None? {
        return st, [], false;
      }
      body := Some(body.value.(tags := t.value));
    }
    return NodeRec(id, body), out, true;
  }

  /** An event yields at most one node: a self-closing `node` at once, any other at its end tag. */
  lemma NodeYieldsOnce(nums: Numbers, st: NodeRec, e: Event)
    requires NodeStep(nums, st, e).Some?
    ensures |NodeStep(nums, st, e).value.1| <= 1
    ensures |NodeStep(nums, st, e).value.1| == 1 <==> IsEnd(e, "node") || (IsStart(e, "node") && e.isEmpty)
    ensures IsStart(e, "node") && e.isEmpty ==> NodeStep(nums, st, e).value.1 == [OpenNode(nums, e).value]
    ensures IsEnd(e, "node") ==> NodeStep(nums, st, e).value.1 == [st]
  {
  }

  /** The tags of the `tag` elements from `k` up to `j`, added in order to `t`. */
  function TagsFrom(events: seq<Event>, k: nat, j: nat, t: Tags): Option<Tags>
    requires k <= j <= |events|
    decreases j - k
  {
    if k == j then Some(t)
    else if IsStart(events[k], "tag") then
      var t' := AddTag(t, events[k]);
      if t'.None? then None else TagsFrom(events, k + 1, j, t'.value)
    else TagsFrom(events, k + 1, j, t)
  }

  /** Between the start and end tag of a node nothing but its tags matters. */
  predicate NodeInterior(events: seq<Event>, k: nat, j: nat)
    requires k <= j <= |events|
  {
    forall m :: k <= m < j ==> !IsStart(events[m], "way") && !IsStart(events[m], "node") && !IsEnd(events[m], "node")
  }

  lemma {:induction false} NodeTagsSpan(nums: Numbers, events: seq<Event>, k: nat, j: nat, id: nat, body: NodeBody)
    requires k <= j <= |events| && NodeInterior(events, k, j)
    requires TagsFrom(events, k, j, body.tags).Some?
    ensures NodesRun(nums, events, k, NodeRec(id, Some(body)))
      == NodesRun(nums, events, j, NodeRec(id, Some(body.(tags := TagsFrom(events, k, j, body.tags).value))))
    decreases j - k
  {
    if k < j {
      var e := events[k];
      if IsStart(e, "tag") {
        NodeTagsSpan(nums, events, k + 1, j, id, body.(tags := AddTag(body.tags, e).value));
      } else {
        NodeTagsSpan(nums, events, k + 1, j, id, body);
      }
    }
  }

  /**
   * A non-empty `node` element at `i` closed at `j` is yielded once, at `j`, with exactly the
   * tags of the `tag` elements between the two.
   */
  lemma NodeRecordSpan(nums: Numbers, events: seq<Event>, i: nat, j: nat, st: NodeRec)
    requires i < j < |events| && IsStart(events[i], "node") && !events[i].isEmpty && IsEnd(events[j], "node")
    requires NodeInterior(events, i + 1, j)
    requires OpenNode(nums, events[i]).Some? && TagsFrom(events, i + 1, j, map[]).Some?
    ensures var o := OpenNode(nums, events[i]).value;
      NodesRun(nums, events, i, st)
        == Prepend([NodeRec(o.id, Some(o.body.value.(tags := TagsFrom(events, i + 1, j, map[]).value)))],
                   NodesRun(nums, events, j + 1, NodeRec(o.id, None)))
  {
    var o := OpenNode(nums, events[i]).value;
    NodeTagsSpan(nums, events, i + 1, j, o.id, o.body.value);
  }

  /** `ParseNodes` stops on the first `way` start element, or at the end of the file. */
  lemma {:induction false} NodesStopAtWay(nums: Numbers, events: seq<Event>, i: nat, st: NodeRec)
    requires i <= |events|
    ensures var r := NodesRun(nums, events, i, st);
      && i <= r.stop <= |events|
      && (forall m :: i <= m < r.stop ==> !IsStart(events[m], "way"))
      && (r.ok ==> r.stop == |events| || IsStart(events[r.stop], "way"))
    decreases |events| - i
  {
    if i < |events| && !IsStart(events[i], "way") && NodeStep(nums, st, events[i]).Some? {
      NodesStopAtWay(nums, events, i + 1, NodeStep(nums, st, events[i]).value.0);
    }
  }

  // ---------------------------------------------------------------------------
  // ParseWays

  /** The `Way` class: its `nd` refs and whether it closes on itself. */
  datatype Way = Way(nodes: seq<nat>, area: bool)

  datatype WayBody = WayBody(nodes: seq<nat>, tags: Tags)

  /** The locals `id`, `way` and `tags` of `ParseWays`; `way` and `tags` are null together. */
  datatype WayState = WayState(id: nat, body: Option<WayBody>)

  datatype WayRec = WayRec(id: nat, way: Way, tags: Tags)

  function OpenWay(nums: Numbers, e: Event): Option<WayState>
  {
    var id := ParseId(nums, Attr(e, "id"));
    if id.None? then None else Some(WayState(id.value, Some(WayBody([], map[]))))
  }

  /** The end tag of a way: `way.Nodes[0]` throws on a null way or an empty one. */
  function CloseWay(st: WayState): (closed: Option<WayRec>)
    ensures closed.Some? <==> st.body.Some? && |st.body.value.nodes| >= 1
    ensures closed.Some? ==>
      var nodes := st.body.value.nodes;
      && closed.value == WayRec(st.id, closed.value.way, st.body.value.tags)
      && closed.value.way.nodes == nodes
      && (closed.value.way.area <==> nodes[0] == nodes[|nodes| - 1])
  {
    if st.body.None? || st.body.value.nodes == [] then None
    else
      var nodes := st.body.value.nodes;
      Some(WayRec(st.id, Way(nodes, nodes[0] == nodes[|nodes| - 1]), st.body.value.tags))
  }

  function WayStep(nums: Numbers, st: WayState, e: Event): Option<(WayState, seq<WayRec>)>
  {
    if IsStart(e, "way") then
      var o := OpenWay(nums, e);
      if o.None? then None else Some((o.value, []))
    else if IsStart(e, "tag") && st.body.Some? then
      var t := AddTag(st.body.value.tags, e);
      if t.None? then None else Some((WayState(st.id, Some(st.body.value.(tags := t.value))), []))
    else if IsStart(e, "nd") && st.body.Some? then
      var r := ParseId(nums, Attr(e, "ref"));
      if r.None? then None
      else Some((WayState(st.id, Some(st.body.value.(nodes := st.body.value.nodes + [r.value]))), []))
    else if IsEnd(e, "way") then
      var w := CloseWay(st);
      if w.None? then None else Some((WayState(st.id, None), [w.value]))
    else Some((st, []))
  }

  /** The loop of `ParseWays` from event `i` on: it stops before the first `relation` element. */
  function WaysRun(nums: Numbers, events: seq<Event>, i: nat, st: WayState): (r: Run<WayRec>)
    requires i <= |events|
    ensures i <= r.stop <= |events|
    decreases |events| - i
  {
    if i == |events| || IsStart(events[i], "relation") then Run([], true, i)
    else
      var step := WayStep(nums, st, events[i]);
      if step.None? then Run([], false, i)
      else Prepend(step.value.1, WaysRun(nums, events, i + 1, step.value.0))
  }

  lemma WaysRunStop(nums: Numbers, events: seq<Event>, i: nat, st: WayState)
    requires i <= |events| && (i == |events| || IsStart(events[i], "relation"))
    ensures WaysRun(nums, events, i, st) == Run([], true, i)
  {
  }

  lemma WaysRunThrow(nums: Numbers, events: seq<Event>, i: nat, st: WayState)
    requires i < |events| && !IsStart(events[i], "relation") && WayStep(nums, st, events[i]).None?
    ensures WaysRun(nums, events, i, st) == Run([], false, i)
  {
  }

  lemma WaysRunStep(nums: Numbers, events: seq<Event>, i: nat, st: WayState, next: WayState, out: seq<WayRec>)
    requires i < |events| && !IsStart(events[i], "relation") && WayStep(nums, st, events[i]) == Some((next, out))
    ensures WaysRun(nums, events, i, st) == Prepend(out, WaysRun(nums, events, i + 1, next))
  {
  }

  /** `ParseWays(reader)` with the reader at `p`: a `way` under the cursor opens the first record. */
  function WaysFrom(nums: Numbers, events: seq<Event>, p: int): (r: Run<WayRec>)
    requires -1 <= p <= |events|
    ensures r.stop <= |events|
  {
    if 0 <= p < |events| && IsStart(events[p], "way") then
      var o := OpenWay(nums, events[p]);
      if o.None? then Run([], false, p) else WaysRun(nums, events, p + 1, o.value)
    else WaysRun(nums, events, Next(p, |events|), WayState(0, None))
  }

  method ParseWays(nums: Numbers, reader: XmlReader) returns (records: seq<WayRec>, ok: bool)
    requires reader.Valid()
    modifies reader
    ensures reader.Valid() && 0 <= reader.pos && Run(records, ok, reader.pos as nat) == WaysFrom(nums, reader.events, old(reader.pos))
  {
    var events := reader.events;
    var st := WayState(0, None);
    var start := reader.Current();
    if IsStart(start, "way") {
      var o := OpenWay(nums, start);
      if o.None? {
        return [], false;
      }
      st := o.value;
    }
    ghost var whole := WaysFrom(nums, events, reader.pos);
    records := [];
    assert whole == Prepend(records, WaysRun(nums, events, Next(reader.pos, |events|), st));
    while true
      invariant reader.Valid() && reader.events == events
      invariant whole == Prepend(records, WaysRun(nums, events, Next(reader.pos, |events|), st))
      decreases |events| - reader.pos
    {
      var done;
      done, records, st, ok := WaysPass(nums, reader, records, st, whole);
      if done {
        return;
      }
    }
  }

  /** One pass of the `ParseWays` loop: read the next node and handle it; `done` when the loop ends. */
  method WaysPass(nums: Numbers, reader: XmlReader, records: seq<WayRec>, st: WayState, ghost whole: Run<WayRec>)
    returns (done: bool, records': seq<WayRec>, st': WayState, ok: bool)
    requires reader.Valid()
    requires whole == Prepend(records, WaysRun(nums, reader.events, Next(reader.pos, |reader.events|), st))
    modifies reader
    ensures reader.Valid() && reader.pos == Next(old(reader.pos), |reader.events|)
    ensures done ==> Run(records', ok, reader.pos as nat) == whole
    ensures !done ==> reader.pos < |reader.events| && whole == Prepend(records', WaysRun(nums, reader.events, Next(reader.pos, |reader.events|), st'))
  {
    var more := reader.Read();
    ghost var i := reader.pos;
    if !more {
      WaysRunStop(nums, reader.events, i, st);
      return true, records, st, true;
    }
    var e := reader.Current();
    if IsStart(e, "relation") {
      WaysRunStop(nums, reader.events, i, st);
      return true, records, st, true;
    }
    var next, out, stepOk := WayEvent(nums, st, e);
    if !stepOk {
      WaysRunThrow(nums, reader.events, i, st);
      return true, records, st, false;
    }
    WaysRunStep(nums, reader.events, i, st, next, out);
    PrependPrepend(records, out, WaysRun(nums, reader.events, i + 1, next));
    return false, records + out, next, true;
  }

  /** The body of the `ParseWays` loop for one event: the new locals, the records yielded, and whether it threw. */
  method WayEvent(nums: Numbers, st: WayState, e: Event) returns (next: WayState, out: seq<WayRec>, ok: bool)
    ensures ok <==> WayStep(nums, st, e).Some?
    ensures ok ==> WayStep(nums, st, e) == Some((next, out))
  {
    var id, body := st.id, st.body;
    out := [];
    if IsStart(e, "way") {
      var o := OpenWay(nums, e);
      if o.None? {
        return st, [], false;
      }
      id, body := o.value.id, o.value.body;
    } else if IsStart(e, "tag") && body.Some? {
      var t := AddTag(body.value.tags, e);
      if t.None? {
        return st, [], false;
      }
      body := Some(body.value.(tags := t.value));
    } else if IsStart(e, "nd") && body.Some? {
      var r := ParseId(nums, Attr(e, "ref"));
      if r.None? {
        return st, [], false;
      }
      body := Some(body.value.(nodes := body.value.nodes + [r.value]));
    } else if IsEnd(e, "way") {
      if body.None? || body.value.nodes == [] {
        return st, [], false;
      }
      var nodes := body.value.nodes;
      out := [WayRec(id, Way(nodes, nodes[0] == nodes[|nodes| - 1]), body.value.tags)];
      body := None;
    }
    return WayState(id, body), out, true;
  }

  /** The refs of the `nd` elements from `k` up to `j`, in document order. */
  function NdRefs(nums: Numbers, events: seq<Event>, k: nat, j: nat): Option<seq<nat>>
    requires k <= j <= |events|
    decreases j - k
  {
    if k == j then Some([])
    else
      var rest := NdRefs(nums, events, k + 1, j);
      if !IsStart(events[k], "nd") then rest
      else
        var r := ParseId(nums, Attr(events[k], "ref"));
        if r.None? || rest.None? then None else Some([r.value] + rest.value)
  }

  predicate WayInterior(events: seq<Event>, k: nat, j: nat)
    requires k <= j <= |events|
  {
    forall m :: k <= m < j ==> !IsStart(events[m], "way") && !IsStart(events[m], "relation") && !IsEnd(events[m], "way")
  }

  lemma {:induction false} WayBodySpan(nums: Numbers, events: seq<Event>, k: nat, j: nat, id: nat, body: WayBody)
    requires k <= j <= |events| && WayInterior(events, k, j)
    requires NdRefs(nums, events, k, j).Some? && TagsFrom(events, k, j, body.tags).Some?
    ensures WaysRun(nums, events, k, WayState(id, Some(body)))
      == WaysRun(nums, events, j, WayState(id, Some(WayBody(body.nodes + NdRefs(nums, events, k, j).value,
                                                             TagsFrom(events, k, j, body.tags).value))))
    decreases j - k
  {
    if k == j {
      assert body.nodes + [] == body.nodes;
    } else {
      var e := events[k];
      if IsStart(e, "tag") {
        WayBodySpan(nums, events, k + 1, j, id, body.(tags := AddTag(body.tags, e).value));
      } else if IsStart(e, "nd") {
        var r := ParseId(nums, Attr(e, "ref")).value;
        WayBodySpan(nums, events, k + 1, j, id, body.(nodes := body.nodes + [r]));
        assert body.nodes + [r] + NdRefs(nums, events, k + 1, j).value
          == body.nodes + NdRefs(nums, events, k, j).value;
      } else {
        WayBodySpan(nums, events, k + 1, j, id, body);
      }
    }
  }

  /**
   * A `way` element at `i` closed at `j` yields one record at `j`: its `nd` refs in document
   * order, exactly the tags between the two tags, and `Area` iff the first ref is the last.
   * A way without `nd` children throws at its end tag.
   */
  lemma WayRecordSpan(nums: Numbers, events: seq<Event>, i: nat, j: nat, st: WayState)
    requires i < j < |events| && IsStart(events[i], "way") && IsEnd(events[j], "way")
    requires WayInterior(events, i + 1, j)
    requires OpenWay(nums, events[i]).Some?
    requires NdRefs(nums, events, i + 1, j).Some? && TagsFrom(events, i + 1, j, map[]).Some?
    ensures NdRefs(nums, events, i + 1, j).value == [] ==> WaysRun(nums, events, i, st) == Run([], false, j)
    ensures var id := OpenWay(nums, events[i]).value.id;
      var refs := NdRefs(nums, events, i + 1, j).value;
      var tags := TagsFrom(events, i + 1, j, map[]).value;
      refs != [] ==>
        WaysRun(nums, events, i, st) == Prepend([WayRec(id, Way(refs, refs[0] == refs[|refs| - 1]), tags)], WaysRun(nums, events, j + 1, WayState(id, None)))
  {
    var o := OpenWay(nums, events[i]).value;
    WayBodySpan(nums, events, i + 1, j, o.id, o.body.value);
    assert [] + NdRefs(nums, events, i + 1, j).value == NdRefs(nums, events, i + 1, j).value;
  }

  /** Every yielded way has at least one ref, and `Area` holds exactly when the first ref equals the last. */
  lemma {:induction false} WaysAreClosedIff(nums: Numbers, events: seq<Event>, i: nat, st: WayState)
    requires i <= |events|
    ensures forall w :: w in WaysRun(nums, events, i, st).records ==>
      |w.way.nodes| >= 1 && (w.way.area <==> w.way.nodes[0] == w.way.nodes[|w.way.nodes| - 1])
    decreases |events| - i
  {
    if i < |events| && !IsStart(events[i], "relation") && WayStep(nums, st, events[i]).Some? {
      WaysAreClosedIff(nums, events, i + 1, WayStep(nums, st, events[i]).value.0);
    }
  }

  /** `ParseWays` stops on the first `relation` start element, or at the end of the file. */
  lemma {:induction false} WaysStopAtRelation(nums: Numbers, events: seq<Event>, i: nat, st: WayState)
    requires i <= |events|
    ensures var r := WaysRun(nums, events, i, st);
      && i <= r.stop <= |events|
      && (forall m :: i <= m < r.stop ==> !IsStart(events[m], "relation"))
      && (r.ok ==> r.stop == |events| || IsStart(events[r.stop], "relation"))
    decreases |events| - i
  {
    if i < |events| && !IsStart(events[i], "relation") && WayStep(nums, st, events[i]).Some? {
      WaysStopAtRelation(nums, events, i + 1, WayStep(nums, st, events[i]).value.0);
    }
  }

  /**
   * The hand-over between sections: where `ParseNodes` leaves the reader, `ParseWays` opens
   * its first record from the `way` element under the cursor, so no way is lost.
   */
  lemma NodesHandOverToWays(nums: Numbers, events: seq<Event>, p: int)
    requires -1 <= p <= |events|
    requires NodesFrom(nums, events, p).ok
    ensures var stop := NodesFrom(nums, events, p).stop;
      stop <= |events|
      && (stop == |events| || IsStart(events[stop], "way"))
      && (stop < |events| && OpenWay(nums, events[stop]).Some? ==>
            WaysFrom(nums, events, stop) == WaysRun(nums, events, stop + 1, OpenWay(nums, events[stop]).value))
  {
    if 0 <= p < |events| && IsStart(events[p], "node") {
      NodesStopAtWay(nums, events, p + 1, OpenNode(nums, events[p]).value);
    } else {
      NodesStopAtWay(nums, events, Next(p, |events|), NodeRec(0, None));
    }
  }

  // ---------------------------------------------------------------------------
  // ParseRelations

  /** The `Relation` class: member refs sorted into four lists. */
  datatype Relation = Relation(nodes: seq<nat>, innerWays: seq<nat>, outerWays: seq<nat>, relations: seq<nat>)

  datatype RelBody = RelBody(relation: Relation, tags: Tags)

  /** The locals `id`, `relation` and `tags` of `ParseRelations`, which is also what it yields. */
  datatype RelRec = RelRec(id: nat, body: Option<RelBody>)

  /** A `member` by its `type` and `role`. */
  function Classify(r: Relation, member: nat, kind: Option<string>, role: Option<string>): (c: Relation)
    ensures kind == Some("node") ==> c == r.(nodes := r.nodes + [member])
    ensures kind == Some("way") && role == Some("inner") ==> c == r.(innerWays := r.innerWays + [member])
    ensures kind == Some("way") && role == Some("outer") ==> c == r.(outerWays := r.outerWays + [member])
    ensures kind == Some("relation") ==> c == r.(relations := r.relations + [member])
    ensures kind !in {Some("node"), Some("way"), Some("relation")} || (kind == Some("way") && role !in {Some("inner"), Some("outer")})
      ==> c == r
  {
    var r1 := if kind == Some("node") then r.(nodes := r.nodes + [member]) else r;
    var r2 := if kind == Some("way") && role == Some("inner") then r1.(innerWays := r1.innerWays + [member]) else r1;
    var r3 := if kind == Some("way") && role == Some("outer") then r2.(outerWays := r2.outerWays + [member]) else r2;
    if kind == Some("relation") then r3.(relations := r3.relations + [member]) else r3
  }

  function OpenRelation(nums: Numbers, e: Event): Option<RelRec>
  {
    var id := ParseId(nums, Attr(e, "id"));
    if id.None? then None else Some(RelRec(id.value, Some(RelBody(Relation([], [], [], []), map[]))))
  }

  /** One event of the `ParseRelations` loop; a `member`'s `ref` is parsed even with no relation open. */
  function RelStep(nums: Numbers, st: RelRec, e: Event): Option<(RelRec, seq<RelRec>)>
  {
    if IsStart(e, "relation") then
      var o := OpenRelation(nums, e);
      if o.None? then None else Some((o.value, []))
    else if IsStart(e, "tag") && st.body.Some? then
      var t := AddTag(st.body.value.tags, e);
      if t.None? then None else Some((RelRec(st.id, Some(st.body.value.(tags := t.value))), []))
    else if IsStart(e, "member") then
      var m := ParseId(nums, Attr(e, "ref"));
      if m.None? then None
      else if st.body.None? then Some((st, []))
      else
        var r := Classify(st.body.value.relation, m.value, Attr(e, "type"), Attr(e, "role"));
        Some((RelRec(st.id, Some(st.body.value.(relation := r))), []))
    else if IsEnd(e, "relation") then Some((RelRec(st.id, None), [st]))
    else Some((st, []))
  }

  /** The loop of `ParseRelations` from event `i` to the end of the file. */
  function RelationsRun(nums: Numbers, events: seq<Event>, i: nat, st: RelRec): (r: Run<RelRec>)
    requires i <= |events|
    ensures i <= r.stop <= |events|
    decreases |events| - i
  {
    if i == |events| then Run([], true, i)
    else
      var step := RelStep(nums, st, events[i]);
      if step.None? then Run([], false, i)
      else Prepend(step.value.1, RelationsRun(nums, events, i + 1, step.value.0))
  }

  lemma RelationsRunStop(nums: Numbers, events: seq<Event>, i: nat, st: RelRec)
    requires i == |events|
    ensures RelationsRun(nums, events, i, st) == Run([], true, i)
  {
  }

  lemma RelationsRunThrow(nums: Numbers, events: seq<Event>, i: nat, st: RelRec)
    requires i < |events| && RelStep(nums, st, events[i]).None?
    ensures RelationsRun(nums, events, i, st) == Run([], false, i)
  {
  }

  lemma RelationsRunStep(nums: Numbers, events: seq<Event>, i: nat, st: RelRec, next: RelRec, out: seq<RelRec>)
    requires i < |events| && RelStep(nums, st, events[i]) == Some((next, out))
    ensures RelationsRun(nums, events, i, st) == Prepend(out, RelationsRun(nums, events, i + 1, next))
  {
  }

  function RelationsFrom(nums: Numbers, events: seq<Event>, p: int): (r: Run<RelRec>)
    requires -1 <= p <= |events|
    ensures r.stop <= |events|
  {
    if 0 <= p < |events| && IsStart(events[p], "relation") then
      var o := OpenRelation(nums, events[p]);
      if o.None? then Run([], false, p) else RelationsRun(nums, events, p + 1, o.value)
    else RelationsRun(nums, events, Next(p, |events|), RelRec(0, None))
  }

  method ParseRelations(nums: Numbers, reader: XmlReader) returns (records: seq<RelRec>, ok: bool)
    requires reader.Valid()
    modifies reader
    ensures reader.Valid() && 0 <= reader.pos && Run(records, ok, reader.pos as nat) == RelationsFrom(nums, reader.events, old(reader.pos))
  {
    var events := reader.events;
    var st := RelRec(0, None);
    var start := reader.Current();
    if IsStart(start, "relation") {
      var o := OpenRelation(nums, start);
      if o.None? {
        return [], false;
      }
      st := o.value;
    }
    ghost var whole := RelationsFrom(nums, events, reader.pos);
    records := [];
    assert whole == Prepend(records, RelationsRun(nums, events, Next(reader.pos, |events|), st));
    while true
      invariant reader.Valid() && reader.events == events
      invariant whole == Prepend(records, RelationsRun(nums, events, Next(reader.pos, |events|), st))
      decreases |events| - reader.pos
    {
      var done;
      done, records, st, ok := RelationsPass(nums, reader, records, st, whole);
      if done {
        return;
      }
    }
  }

  /** One pass of the `ParseRelations` loop: read the next node and handle it; `done` when the loop ends. */
  method RelationsPass(nums: Numbers, reader: XmlReader, records: seq<RelRec>, st: RelRec, ghost whole: Run<RelRec>)
    returns (done: bool, records': seq<RelRec>, st': RelRec, ok: bool)
    requires reader.Valid()
    requires whole == Prepend(records, RelationsRun(nums, reader.events, Next(reader.pos, |reader.events|), st))
    modifies reader
    ensures reader.Valid() && reader.pos == Next(old(reader.pos), |reader.events|)
    ensures done ==> Run(records', ok, reader.pos as nat) == whole
    ensures !done ==> reader.pos < |reader.events| && whole == Prepend(records', RelationsRun(nums, reader.events, Next(reader.pos, |reader.events|), st'))
  {
    var more := reader.Read();
    ghost var i := reader.pos;
    if !more {
      RelationsRunStop(nums, reader.events, i, st);
      return true, records, st, true;
    }
    var e := reader.Current();
    var next, out, stepOk := RelationEvent(nums, st, e);
    if !stepOk {
      RelationsRunThrow(nums, reader.events, i, st);
      return true, records, st, false;
    }
    RelationsRunStep(nums, reader.events, i, st, next, out);
    PrependPrepend(records, out, RelationsRun(nums, reader.events, i + 1, next));
    return false, records + out, next, true;
  }

  /** The body of the `ParseRelations` loop for one event: the new locals, the records yielded, and whether it threw. */
  method RelationEvent(nums: Numbers, st: RelRec, e: Event) returns (next: RelRec, out: seq<RelRec>, ok: bool)
    ensures ok <==> RelStep(nums, st, e).Some?
    ensures ok ==> RelStep(nums, st, e) == Some((next, out))
  {
    var id, body := st.id, st.body;
    out := [];
    if IsStart(e, "relation") {
      var o := OpenRelation(nums, e);
      if o.None? {
        return st, [], false;
      }
      id, body := o.value.id, o.value.body;
    } else if IsStart(e, "tag") && body.Some? {
      var t := AddTag(body.value.tags, e);
      if t.None? {
        return st, [], false;
      }
      body := Some(body.value.(tags := t.value));
    } else if IsStart(e, "member") {
      var m := ParseId(nums, Attr(e, "ref"));
      if m.None? {
        return st, [], false;
      }
      if body.Some? {
        var r := Classify(body.value.relation, m.value, Attr(e, "type"), Attr(e, "role"));
        body := Some(body.value.(relation := r));
      }
    } else if IsEnd(e, "relation") {
      out := [RelRec(id, body)];
      body := None;
    }
    return RelRec(id, body), out, true;
  }

  /** The members from `k` up to `j`, sorted in order into `r`; `None` on a `ref` that does not parse. */
  function MembersFrom(nums: Numbers, events: seq<Event>, k: nat, j: nat, r: Relation): Option<Relation>
    requires k <= j <= |events|
    decreases j - k
  {
    if k == j then Some(r)
    else if IsStart(events[k], "member") then
      var m := ParseId(nums, Attr(events[k], "ref"));
      if m.None? then None
      else MembersFrom(nums, events, k + 1, j, Classify(r, m.value, Attr(events[k], "type"), Attr(events[k], "role")))
    else MembersFrom(nums, events, k + 1, j, r)
  }

  predicate RelationInterior(events: seq<Event>, k: nat, j: nat)
    requires k <= j <= |events|
  {
    forall m :: k <= m < j ==> !IsStart(events[m], "relation") && !IsEnd(events[m], "relation")
  }

  lemma {:induction false} RelationBodySpan(nums: Numbers, events: seq<Event>, k: nat, j: nat, id: nat, body: RelBody)
    requires k <= j <= |events| && RelationInterior(events, k, j)
    requires MembersFrom(nums, events, k, j, body.relation).Some? && TagsFrom(events, k, j, body.tags).Some?
    ensures RelationsRun(nums, events, k, RelRec(id, Some(body)))
      == RelationsRun(nums, events, j, RelRec(id, Some(RelBody(MembersFrom(nums, events, k, j, body.relation).value,
                                                               TagsFrom(events, k, j, body.tags).value))))
    decreases j - k
  {
    if k < j {
      var e := events[k];
      if IsStart(e, "tag") {
        RelationBodySpan(nums, events, k + 1, j, id, body.(tags := AddTag(body.tags, e).value));
      } else if IsStart(e, "member") {
        var m := ParseId(nums, Attr(e, "ref")).value;
        RelationBodySpan(nums, events, k + 1, j, id,
          body.(relation := Classify(body.relation, m, Attr(e, "type"), Attr(e, "role"))));
      } else {
        RelationBodySpan(nums, events, k + 1, j, id, body);
      }
    }
  }

  /**
   * A `relation` element at `i` closed at `j` is yielded once, at `j`, with its members
   * classified in document order and exactly the tags between the two tags.
   */
  lemma RelationRecordSpan(nums: Numbers, events: seq<Event>, i: nat, j: nat, st: RelRec)
    requires i < j < |events| && IsStart(events[i], "relation") && IsEnd(events[j], "relation")
    requires RelationInterior(events, i + 1, j)
    requires OpenRelation(nums, events[i]).Some?
    requires MembersFrom(nums, events, i + 1, j, Relation([], [], [], [])).Some?
    requires TagsFrom(events, i + 1, j, map[]).Some?
    ensures var id := OpenRelation(nums, events[i]).value.id;
      RelationsRun(nums, events, i, st)
        == Prepend([RelRec(id, Some(RelBody(MembersFrom(nums, events, i + 1, j, Relation([], [], [], [])).value,
                                            TagsFrom(events, i + 1, j, map[]).value)))],
                   RelationsRun(nums, events, j + 1, RelRec(id, None)))
  {
    var o := OpenRelation(nums, events[i]).value;
    RelationBodySpan(nums, events, i + 1, j, o.id, o.body.value);
  }

  /** A repeated tag key inside an open record throws, in every section. */
  lemma RepeatedTagThrows(nums: Numbers, e: Event, n: NodeRec, w: WayState, r: RelRec)
    requires IsStart(e, "tag") && Attr(e, "k").Some?
    requires n.body.Some? && Attr(e, "k").value in n.body.value.tags
    requires w.body.Some? && Attr(e, "k").value in w.body.value.tags
    requires r.body.Some? && Attr(e, "k").value in r.body.value.tags
    ensures NodeStep(nums, n, e).None? && WayStep(nums, w, e).None? && RelStep(nums, r, e).None?
  {
  }

  /** A tag with no record open is dropped, whatever its attributes. */
  lemma StrayTagDropped(nums: Numbers, e: Event, n: NodeRec, w: WayState, r: RelRec)
    requires IsStart(e, "tag")
    requires n.body.None? && w.body.None? && r.body.None?
    ensures NodeStep(nums, n, e) == Some((n, []))
    ensures WayStep(nums, w, e) == Some((w, []))
    ensures RelStep(nums, r, e) == Some((r, []))
  {
  }

  // ---------------------------------------------------------------------------
  // ParseAllNodes / ParseAllWays

  /** `Dictionary.Add` of each pair in order: `None` on a repeated key. */
  function Table<V>(pairs: seq<(nat, V)>): Option<map<nat, V>>
    decreases |pairs|
  {
    if pairs == [] then Some(map[])
    else
      var t := Table(pairs[..|pairs| - 1]);
      var p := pairs[|pairs| - 1];
      if t.None? || p.0 in t.value then None else Some(t.value[p.0 := p.1])
  }

  predicate DistinctKeys<V>(pairs: seq<(nat, V)>)
  {
    forall a, b :: 0 <= a < b < |pairs| ==> pairs[a].0 != pairs[b].0
  }

  /** The table exists iff no key repeats, and then maps each key to its pair's value. */
  lemma {:induction false} TableMeaning<V>(pairs: seq<(nat, V)>)
    ensures Table(pairs).Some? <==> DistinctKeys(pairs)
    ensures Table(pairs).Some? ==>
      (forall k :: 0 <= k < |pairs| ==> pairs[k].0 in Table(pairs).value && Table(pairs).value[pairs[k].0] == pairs[k].1)
      && (forall id :: id in Table(pairs).value ==> exists k :: 0 <= k < |pairs| && pairs[k].0 == id)
    decreases |pairs|
  {
    if pairs != [] {
      var n := |pairs| - 1;
      var init := pairs[..n];
      TableMeaning(init);
      assert forall k :: 0 <= k < n ==> init[k] == pairs[k];
      if Table(pairs).Some? {
        forall id | id in Table(pairs).value ensures exists k :: 0 <= k < |pairs| && pairs[k].0 == id {
          if id != pairs[n].0 {
            var k :| 0 <= k < n && init[k].0 == id;
            assert pairs[k].0 == id;
          }
        }
      }
    }
  }

  function NodePairs(records: seq<NodeRec>): seq<(nat, Option<Node>)>
  {
    seq(|records|, k requires 0 <= k < |records| =>
      (records[k].id, if records[k].body.Some? then Some(records[k].body.value.node) else None))
  }

  function WayPairs(records: seq<WayRec>): seq<(nat, Way)>
  {
    seq(|records|, k requires 0 <= k < |records| => (records[k].id, records[k].way))
  }

  /** Add each pair in order, as the `foreach` of `ParseAllNodes` and `ParseAllWays` does. */
  method AddAll<V>(pairs: seq<(nat, V)>) returns (table: Option<map<nat, V>>)
    ensures table == Table(pairs)
  {
    var t: map<nat, V> := map[];
    var k := 0;
    while k < |pairs|
      invariant 0 <= k <= |pairs| && Table(pairs[..k]) == Some(t)
    {
      assert pairs[..k + 1][..k] == pairs[..k];
      if pairs[k].0 in t {
        TableFailureStays(pairs, k + 1);
        return None;
      }
      t := t[pairs[k].0 := pairs[k].1];
      k := k + 1;
    }
    assert pairs[..k] == pairs;
    return Some(t);
  }

  lemma {:induction false} TableFailureStays<V>(pairs: seq<(nat, V)>, k: nat)
    requires k <= |pairs| && Table(pairs[..k]).None?
    ensures Table(pairs).None?
    decreases |pairs| - k
  {
    if k < |pairs| {
      assert pairs[..k + 1][..k] == pairs[..k];
      TableFailureStays(pairs, k + 1);
    } else {
      assert pairs[..k] == pairs;
    }
  }

  /** `ParseAllNodes`: every node of the nodes section by id; `None` if parsing throws or an id repeats. */
  method ParseAllNodes(nums: Numbers, reader: XmlReader) returns (nodes: Option<map<nat, Option<Node>>>)
    requires reader.Valid()
    modifies reader
    ensures reader.Valid()
    ensures var run := NodesFrom(nums, reader.events, old(reader.pos));
      nodes == (if run.ok then Table(NodePairs(run.records)) else None)
    ensures nodes.Some? ==> reader.pos == NodesFrom(nums, reader.events, old(reader.pos)).stop
  {
    var records, ok := ParseNodes(nums, reader);
    if !ok {
      return None;
    }
    nodes := AddAll(NodePairs(records));
  }

  /** `ParseAllWays`: every way of the ways section by id; `None` if parsing throws or an id repeats. */
  method ParseAllWays(nums: Numbers, reader: XmlReader) returns (ways: Option<map<nat, Way>>)
    requires reader.Valid()
    modifies reader
    ensures reader.Valid()
    ensures var run := WaysFrom(nums, reader.events, old(reader.pos));
      ways == (if run.ok then Table(WayPairs(run.records)) else None)
  {
    var records, ok := ParseWays(nums, reader);
    if !ok {
      return None;
    }
    ways := AddAll(WayPairs(records));
  }

  /** Two nodes with one id make `ParseAllNodes` throw. */
  lemma RepeatedNodeIdThrows(records: seq<NodeRec>, a: nat, b: nat)
    requires a < b < |records| && records[a].id == records[b].id
    ensures Table(NodePairs(records)).None?
  {
    TableMeaning(NodePairs(records));
    assert NodePairs(records)[a].0 == NodePairs(records)[b].0;
  }
}
