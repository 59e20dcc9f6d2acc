/** The append-only graph store: nodes, edges, events and projections held in memory, every change also written
    as one record of a log from which the whole state can be loaded again. Payloads appear here opened; sealing
    them is the business of SealedPayload. */
module GraphState {
  import opened Prelude
  import opened Text
  import ProjectionSwap

  datatype UsageEvent = UsageEvent(requestId: string, usd: nat, tokens: nat)

  datatype Payload =
    | LaneHead(subject: string, tail: Option<string>, number: nat)
    | Usage(number: nat, subject: string, event: UsageEvent)
    | Data(text: string)

  datatype Node = Node(id: string, kind: string, payload: Payload)
  datatype Edge = Edge(id: string, kind: string, source: string, target: string, payload: Payload)
  datatype Event = Event(id: string, kind: string, subject: string, ts: string, payload: Payload)

  datatype Record<K, V> =
    | NodeRecord(node: Node)
    | EdgeRecord(edge: Edge)
    | EventRecord(event: Event)
    | ProjectionRecord(key: K, value: V)

  datatype Graph<K, V> = Graph(nodes: map<string, Node>, edges: map<string, Edge>, events: seq<Event>, projections: map<K, V>)

  datatype StoreError = SentinelOverwrite | SentinelUnreadable

  const SENTINEL := "system:graph_key_sentinel"

  // --- what one record does, and what a log means --------------------------------------------------------

  function Apply<K, V>(g: Graph<K, V>, r: Record<K, V>): Graph<K, V> {
    match r
    case NodeRecord(n) => g.(nodes := g.nodes[n.id := n])
    case EdgeRecord(e) => g.(edges := g.edges[e.id := e])
    case EventRecord(e) => g.(events := g.events + [e])
    case ProjectionRecord(k, v) => g.(projections := g.projections[k := v])
  }

  function Replay<K, V>(log: seq<Record<K, V>>): Graph<K, V> {
    if log == [] then Graph(map[], map[], [], map[])
    else Apply(Replay(log[..|log| - 1]), log[|log| - 1])
  }

  lemma ReplayAppend<K, V>(log: seq<Record<K, V>>, r: Record<K, V>)
    ensures Replay(log + [r]) == Apply(Replay(log), r)
  {
    assert (log + [r])[..|log|] == log;
  }

  // What a log means, read backwards: each node, edge and projection is the last one written under its id; the events
  // are the event records, in order.
  function LastNode<K, V>(log: seq<Record<K, V>>, id: string): Option<Node> {
    if log == [] then None
    else
      var r := log[|log| - 1];
      if r.NodeRecord? && r.node.id == id then Some(r.node) else LastNode(log[..|log| - 1], id)
  }

  function LastEdge<K, V>(log: seq<Record<K, V>>, id: string): Option<Edge> {
    if log == [] then None
    else
      var r := log[|log| - 1];
      if r.EdgeRecord? && r.edge.id == id then Some(r.edge) else LastEdge(log[..|log| - 1], id)
  }

  function LastProjection<K(==), V>(log: seq<Record<K, V>>, k: K): Option<V> {
    if log == [] then None
    else
      var r := log[|log| - 1];
      if r.ProjectionRecord? && r.key == k then Some(r.value) else LastProjection(log[..|log| - 1], k)
  }

  function EventsOf<K, V>(log: seq<Record<K, V>>): seq<Event> {
    if log == [] then []
    else if log[0].EventRecord? then [log[0].event] + EventsOf(log[1..])
    else EventsOf(log[1..])
  }

  lemma {:induction false} EventsOfAppend<K, V>(log: seq<Record<K, V>>, r: Record<K, V>)
    ensures EventsOf(log + [r]) == EventsOf(log) + if r.EventRecord? then [r.event] else []
  {
    if log == [] {
      assert log + [r] == [r] && [r][1..] == [];
    } else {
      assert (log + [r])[1..] == log[1..] + [r];
      EventsOfAppend(log[1..], r);
    }
  }

  lemma {:induction false} ReplayIsLastWritten<K, V>(log: seq<Record<K, V>>, id: string, k: K)
    ensures ProjectionSwap.Read(Replay(log).nodes, id) == LastNode(log, id)
    ensures ProjectionSwap.Read(Replay(log).edges, id) == LastEdge(log, id)
    ensures ProjectionSwap.Read(Replay(log).projections, k) == LastProjection(log, k)
    ensures Replay(log).events == EventsOf(log)
  {
    if log != [] {
      var before, r := log[..|log| - 1], log[|log| - 1];
      ReplayIsLastWritten(before, id, k);
      EventsOfAppend(before, r);
      assert log == before + [r];
    }
  }

  // --- the usage ledger: one linked list of usage nodes per subject --------------------------------------

  function HeadId(subject: string): string { "usage_head:" + subject }

  function UsageId(safeSubject: string, number: nat): string { "usage:" + (safeSubject + ":" + Pad8(number)) }

  function FirstEdgeId(head: string, usage: string): string { "edge:" + head + ":FIRST_USAGE:" + usage }

  function NextEdgeId(tail: string, usage: string): string { "edge:" + tail + ":NEXT_USAGE:" + usage }

  function TailOf(p: Payload): Option<string> { if p.LaneHead? then p.tail else None }

  function NumberOf(p: Payload): nat { if p.LaneHead? then p.number else 0 }

  // The records one ledger append writes, in order, given the current nodes.
  function LedgerRecords<K, V>(nodes: map<string, Node>, subject: string, event: UsageEvent): seq<Record<K, V>> {
    var head := HeadId(subject);
    var start := if head in nodes then [] else [NodeRecord(Node(head, "usage_lane_head", LaneHead(subject, None, 0)))];
    var payload := if head in nodes then nodes[head].payload else LaneHead(subject, None, 0);
    var number := NumberOf(payload) + 1;
    var usage := UsageId(Underscored(subject), number);
    var link :=
      if TailOf(payload).Some? && TailOf(payload).value != "" then
        Edge(NextEdgeId(TailOf(payload).value, usage), "NEXT_USAGE", TailOf(payload).value, usage, Data(""))
      else
        Edge(FirstEdgeId(head, usage), "FIRST_USAGE", head, usage, Data(""));
    start + [NodeRecord(Node(usage, "usage_ledger_event", Usage(number, subject, event))),
              EdgeRecord(link),
              NodeRecord(Node(head, "usage_lane_head", LaneHead(subject, Some(usage), number)))]
  }

  function ApplyRecords<K, V>(g: Graph<K, V>, records: seq<Record<K, V>>): Graph<K, V>
    decreases |records|
  {
    if records == [] then g else ApplyRecords(Apply(g, records[0]), records[1..])
  }

  function AppendUsage<K, V>(g: Graph<K, V>, subject: string, event: UsageEvent): Graph<K, V> {
    ApplyRecords(g, LedgerRecords(g.nodes, subject, event))
  }

  // --- the store --------------------------------------------------------------------------------------------

  class GraphStateStore<K(==), V(==)> {
    var nodes: map<string, Node>
    var edges: map<string, Edge>
    var events: seq<Event>
    var projections: map<K, V>
    var log: seq<Record<K, V>>              // the JSONL file
    const opensToSentinel: Payload -> bool  // whether a stored sentinel payload decrypts to the sentinel text

    ghost function Contents(): Graph<K, V>
      reads this
    {
      Graph(nodes, edges, events, projections)
    }

    // The sentinel node is written at most once: every sentinel record in the log is the node in memory.
    ghost predicate SentinelFixed()
      reads this
    {
      forall r :: r in log && r.NodeRecord? && r.node.id == SENTINEL ==> SENTINEL in nodes && nodes[SENTINEL] == r.node
    }

    // Memory is always what the log replays to.
    ghost predicate Valid()
      reads this
    {
      && Replay(log) == Contents()
      && SentinelFixed()
      && (forall id :: id in nodes ==> nodes[id].id == id)
      && (SENTINEL in nodes ==> NodeRecord(nodes[SENTINEL]) in log)
    }

    constructor (opensToSentinel: Payload -> bool)
      ensures Valid() && log == [] && this.opensToSentinel == opensToSentinel
      ensures Contents() == Graph(map[], map[], [], map[])
    {
      nodes, edges, events, projections, log := map[], map[], [], map[], [];
      this.opensToSentinel := opensToSentinel;
    }

    method PutNode(id: string, kind: string, payload: Payload) returns (error: Option<StoreError>)
      requires Valid()
      modifies this
      ensures Valid()
      ensures id == SENTINEL && id in old(nodes) ==>
                && error == (if old(nodes)[id] == Node(id, kind, payload) then None else Some(SentinelOverwrite))
                && Contents() == old(Contents()) && log == old(log)
      ensures !(id == SENTINEL && id in old(nodes)) ==>
                && error == None
                && Contents() == Apply(old(Contents()), NodeRecord(Node(id, kind, payload)))
                && log == old(log) + [NodeRecord(Node(id, kind, payload))]
    {
      if id == SENTINEL && id in nodes {
        var existing := nodes[id];
        if existing.kind != kind || existing.payload != payload { return Some(SentinelOverwrite); }
        return None;
      }
      ReplayAppend(log, NodeRecord(Node(id, kind, payload)));
      nodes := nodes[id := Node(id, kind, payload)];
      log := log + [NodeRecord(Node(id, kind, payload))];
      return None;
    }

    method PutEdge(id: string, kind: string, source: string, target: string, payload: Payload)
      requires Valid()
      modifies this
      ensures Valid()
      ensures Contents() == Apply(old(Contents()), EdgeRecord(Edge(id, kind, source, target, payload)))
      ensures log == old(log) + [EdgeRecord(Edge(id, kind, source, target, payload))]
    {
      ReplayAppend(log, EdgeRecord(Edge(id, kind, source, target, payload)));
      edges := edges[id := Edge(id, kind, source, target, payload)];
      log := log + [EdgeRecord(Edge(id, kind, source, target, payload))];
    }

    method AppendEvent(kind: string, subject: string, payload: Payload, ts: string) returns (event: Event)
      requires Valid()
      modifies this
      ensures Valid()
      ensures event == Event("event:" + kind + ":" + Pad8(|old(events)| + 1), kind, subject, ts, payload)
      ensures Contents() == Apply(old(Contents()), EventRecord(event)) && log == old(log) + [EventRecord(event)]
    {
      event := Event("event:" + kind + ":" + Pad8(|events| + 1), kind, subject, ts, payload);
      ReplayAppend(log, EventRecord(event));
      log := log + [EventRecord(event)];
      events := events + [event];
    }

    method PutProjection(key: K, value: V)
      requires Valid()
      modifies this
      ensures Valid()
      ensures Contents() == Apply(old(Contents()), ProjectionRecord(key, value))
      ensures log == old(log) + [ProjectionRecord(key, value)]
    {
      ReplayAppend(log, ProjectionRecord(key, value));
      projections := projections[key := value];
      log := log + [ProjectionRecord(key, value)];
    }

    method GetNamedProjection(key: K) returns (row: Option<V>)
      ensures row == ProjectionSwap.Read(projections, key)
    {
      row := if key in projections then Some(projections[key]) else None;
    }

    // Compare every update against the current projections, then write them all.
    method CompareAndSwapNamedProjections(updates: seq<ProjectionSwap.Update<K, V>>) returns (ok: bool)
      requires Valid()
      modifies this
      ensures Valid()
      ensures ok <==> ProjectionSwap.AllMatch(old(projections), updates)
      ensures Contents() == old(Contents()).(projections :=
                if ok then ProjectionSwap.ApplyAll(old(projections), updates) else old(projections))
      ensures !ok ==> log == old(log)
    {
      for i := 0 to |updates|
        modifies {}
        invariant forall j :: 0 <= j < i ==> ProjectionSwap.Read(projections, updates[j].key) == updates[j].expected
      {
        var current := GetNamedProjection(updates[i].key);
        var expected := updates[i].expected;
        if expected.None? && current.Some? { return false; }
        if expected.Some? && current != expected { return false; }
      }
      ghost var before := projections;
      for i := 0 to |updates|
        invariant Valid()
        invariant Contents() == old(Contents()).(projections := ProjectionSwap.ApplyAll(before, updates[..i]))
      {
        assert updates[..i + 1][..i] == updates[..i];
        PutProjection(updates[i].key, updates[i].payload);
      }
      assert updates[..|updates|] == updates;
      return true;
    }

    method AppendUsageLedgerEvent(subject: string, event: UsageEvent) returns (usage: string)
      requires Valid()
      modifies this
      ensures Valid()
      ensures Contents() == AppendUsage(old(Contents()), subject, event)
    {
      hide HeadId, UsageId, FirstEdgeId, NextEdgeId;
      var head := HeadId(subject);
      ghost var g, records := Contents(), LedgerRecords<K, V>(nodes, subject, event);
      var isNew := head !in nodes;
      if isNew {
        var _ := PutNode(head, "usage_lane_head", LaneHead(subject, None, 0));
      }
      var oldTail, number := TailOf(nodes[head].payload), NumberOf(nodes[head].payload) + 1;
      usage := UsageId(Underscored(subject), number);
      LedgerIdsAreOrdinary(subject, number);
      var _ := PutNode(usage, "usage_ledger_event", Usage(number, subject, event));
      if oldTail.Some? && oldTail.value != "" {
        PutEdge(NextEdgeId(oldTail.value, usage), "NEXT_USAGE", oldTail.value, usage, Data(""));
      } else {
        PutEdge(FirstEdgeId(head, usage), "FIRST_USAGE", head, usage, Data(""));
      }
      var _ := PutNode(head, "usage_lane_head", LaneHead(subject, Some(usage), number));
      LedgerRecordsUnfold(g, subject, event);
    }

    // Rebuild memory from the log. A stored sentinel that does not open stops the load.
    method Load(file: seq<Record<K, V>>) returns (error: Option<StoreError>)
      modifies this
      ensures error == None <==> forall r :: r in file && r.NodeRecord? && r.node.id == SENTINEL ==> opensToSentinel(r.node.payload)
      ensures error == None ==> Contents() == Replay(file)
      ensures log == old(log)
    {
      nodes, edges, events, projections := map[], map[], [], map[];
      assert file[..0] == [];
      for i := 0 to |file|
        invariant Contents() == Replay(file[..i]) && log == old(log)
        invariant forall r :: r in file[..i] && r.NodeRecord? && r.node.id == SENTINEL ==> opensToSentinel(r.node.payload)
      {
        assert file[..i + 1] == file[..i] + [file[i]];
        ReplayAppend(file[..i], file[i]);
        match file[i] {
          case NodeRecord(n) =>
            nodes := nodes[n.id := n];
            if n.id == SENTINEL && !opensToSentinel(n.payload) {
              assert file[i] in file;
              return Some(SentinelUnreadable);
            }
          case EdgeRecord(e) => edges := edges[e.id := e];
          case EventRecord(e) => events := events + [e];
          case ProjectionRecord(k, v) => projections := projections[k := v];
        }
      }
      assert file[..|file|] == file;
      return None;
    }
  }

  lemma LedgerIdsAreOrdinary(subject: string, number: nat)
    ensures HeadId(subject) != SENTINEL && UsageId(Underscored(subject), number) != SENTINEL
  {
    assert HeadId(subject)[0] == 'u' && UsageId(Underscored(subject), number)[0] == 'u' && SENTINEL[0] == 's';
  }

  lemma ApplyRecordsCons<K, V>(g: Graph<K, V>, r: Record<K, V>, rest: seq<Record<K, V>>)
    ensures ApplyRecords(g, [r] + rest) == ApplyRecords(Apply(g, r), rest)
  {
    assert ([r] + rest)[1..] == rest;
  }

  lemma LedgerRecordsUnfold<K, V>(g: Graph<K, V>, subject: string, event: UsageEvent)
    ensures var records := LedgerRecords<K, V>(g.nodes, subject, event);
            var h := if |records| == 4 then Apply(g, records[0]) else g;
            var last := records[|records| - 3..];
            && (|records| == 3 || |records| == 4)
            && AppendUsage(g, subject, event) == Apply(Apply(Apply(h, last[0]), last[1]), last[2])
  {
    var records := LedgerRecords<K, V>(g.nodes, subject, event);
    var h := if |records| == 4 then Apply(g, records[0]) else g;
    var last := records[|records| - 3..];
    if |records| == 4 {
      assert records == [records[0]] + last;
      ApplyRecordsCons(g, records[0], last);
    } else {
      assert records == last;
    }
    assert last == [last[0]] + ([last[1]] + ([last[2]] + []));
    ApplyRecordsCons(h, last[0], [last[1]] + ([last[2]] + []));
    ApplyRecordsCons(Apply(h, last[0]), last[1], [last[2]] + []);
    ApplyRecordsCons(Apply(Apply(h, last[0]), last[1]), last[2], []);
  }

  // Restart: a store at any point of its life, loaded from the log it has written, comes back with the same
  // nodes, edges, events and projections; the one thing that can stop it is a sentinel that does not open.
  method Restart<K, V>(store: GraphStateStore<K, V>) returns (again: GraphStateStore<K, V>, error: Option<StoreError>)
    requires store.Valid()
    ensures fresh(again)
    ensures error == None <==> (SENTINEL in store.nodes ==> store.opensToSentinel(store.nodes[SENTINEL].payload))
    ensures error == None ==> again.Contents() == store.Contents()
  {
    again := new GraphStateStore(store.opensToSentinel);
    error := again.Load(store.log);
    if SENTINEL in store.nodes {
      assert NodeRecord(store.nodes[SENTINEL]) in store.log;
    }
  }
}
