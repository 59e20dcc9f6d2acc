/** The usage ledger is a strict linked list per subject. For appends to any subjects in any order, mixed with
    writes of unrelated records, the graph holds exactly one chain per subject, and the chain is the history, if and
    only if the subjects stay apart when colons become underscores. Where they do not, an event survives exactly
    until another subject's event takes its place. */
module UsageLedger {
  import opened Prelude
  import opened Text
  import opened GraphState

  datatype Append = Append(subject: string, event: UsageEvent)

  // --- the history of one subject --------------------------------------------------------------------

  function Count(h: seq<Append>, subject: string): nat {
    if h == [] then 0
    else Count(h[..|h| - 1], subject) + if h[|h| - 1].subject == subject then 1 else 0
  }

  // The k-th event appended for a subject, counting from 1.
  function Nth(h: seq<Append>, subject: string, k: nat): UsageEvent
    requires 1 <= k <= Count(h, subject)
  {
    var last := h[|h| - 1];
    if last.subject == subject && k == Count(h, subject) then last.event else Nth(h[..|h| - 1], subject, k)
  }

  // Subjects stay apart after the colon-to-underscore replacement.
  ghost predicate SafeSubjects(h: seq<Append>) {
    forall i, j :: 0 <= i < |h| && 0 <= j < |h| && Underscored(h[i].subject) == Underscored(h[j].subject)
                   ==> h[i].subject == h[j].subject
  }

  lemma {:induction false} CountedSubject(h: seq<Append>, subject: string)
    ensures Count(h, subject) > 0 <==> exists i :: 0 <= i < |h| && h[i].subject == subject
  {
    if h != [] {
      var n := |h| - 1;
      CountedSubject(h[..n], subject);
      if Count(h[..n], subject) > 0 {
        var i :| 0 <= i < n && h[..n][i].subject == subject;
        assert h[i].subject == subject;
      }
      if i :| 0 <= i < |h| && h[i].subject == subject {
        if i < n { assert h[..n][i].subject == subject; }
      }
    }
  }

  // --- where an event lives ----------------------------------------------------------------------------

  function UsageOf(subject: string, k: nat): string { UsageId(Underscored(subject), k) }

  function HeadNode(subject: string, n: nat): Node {
    Node(HeadId(subject), "usage_lane_head", LaneHead(subject, Some(UsageOf(subject, n)), n))
  }

  function UsageNode(subject: string, k: nat, event: UsageEvent): Node {
    Node(UsageOf(subject, k), "usage_ledger_event", Usage(k, subject, event))
  }

  // The edge that leads into the k-th usage node.
  function Link(subject: string, k: nat): Edge
    requires k >= 1
  {
    if k == 1 then
      Edge(FirstEdgeId(HeadId(subject), UsageOf(subject, 1)), "FIRST_USAGE", HeadId(subject), UsageOf(subject, 1), Data(""))
    else
      Edge(NextEdgeId(UsageOf(subject, k - 1), UsageOf(subject, k)), "NEXT_USAGE", UsageOf(subject, k - 1), UsageOf(subject, k), Data(""))
  }

  predicate LedgerKind(kind: string) { kind == "FIRST_USAGE" || kind == "NEXT_USAGE" }

  // --- ids do not clash ------------------------------------------------------------------------------------

  lemma UsageIdInjective(a: string, k: nat, b: string, j: nat)
    requires ColonFree(a) && ColonFree(b) && UsageId(a, k) == UsageId(b, j)
    ensures a == b && k == j
  {
    assert UsageId(a, k)[6..] == a + ":" + Pad8(k);
    assert UsageId(b, j)[6..] == b + ":" + Pad8(j);
    SplitAtColon(a, Pad8(k), b, Pad8(j));
    PaddedDenotes(k);
    PaddedDenotes(j);
  }

  lemma HeadIdInjective(s: string, t: string)
    requires HeadId(s) == HeadId(t)
    ensures s == t
  {
    assert HeadId(s)[11..] == s && HeadId(t)[11..] == t;
  }

  lemma UsageOfInjective(s: string, k: nat, t: string, j: nat)
    requires UsageOf(s, k) == UsageOf(t, j)
    ensures Underscored(s) == Underscored(t) && k == j
  {
    UsageIdInjective(Underscored(s), k, Underscored(t), j);
  }

  lemma HeadIsNotUsage(s: string, t: string, k: nat)
    ensures HeadId(s) != UsageOf(t, k) && UsageOf(t, k) != ""
  {
    assert HeadId(s)[5] == '_' && UsageOf(t, k)[5] == ':';
  }

  lemma FirstLinkInjective(s: string, t: string)
    requires Link(s, 1).id == Link(t, 1).id
    ensures s == t
  {
    var a, b := Link(s, 1).id, Link(t, 1).id;
    assert |a| == 2 * |s| + |b| - 2 * |t|;
    assert a[16..16 + |s|] == s && b[16..16 + |t|] == t;
  }

  lemma Regroup(x: string, y: string, safe: string, c: string, pad: string, z: string, rest: string)
    ensures x + (y + (safe + c + pad)) + (c + z) + rest == (x + y) + (safe + c + (pad + c + (z + rest)))
  {
  }

  lemma FirstLinkShape(s: string)
    ensures Link(s, 1).id == "edge:usage_head:" + s + ":FIRST_USAGE:" + UsageOf(s, 1)
  {
    hide UsageOf;
    assert "edge:" + HeadId(s) == "edge:usage_head:" + s;
  }

  lemma NextLinkShape(s: string, k: nat)
    requires k >= 2
    ensures Link(s, k).id == "edge:usage:" + (Underscored(s) + ":" + (Pad8(k - 1) + ":" + ("NEXT_USAGE:" + UsageOf(s, k))))
  {
    Regroup("edge:", "usage:", Underscored(s), ":", Pad8(k - 1), "NEXT_USAGE:", UsageOf(s, k));
    assert UsageOf(s, k - 1) == "usage:" + (Underscored(s) + ":" + Pad8(k - 1));
    hide Pad8, Underscored, UsageOf, UsageId;
    assert "edge:" + "usage:" == "edge:usage:" && ":" + "NEXT_USAGE:" == ":NEXT_USAGE:";
  }

  lemma NextLinkInjective(s: string, k: nat, t: string, j: nat)
    requires k >= 2 && j >= 2 && Link(s, k).id == Link(t, j).id
    ensures Underscored(s) == Underscored(t) && k == j
  {
    hide Pad8, UsageOf, Link;
    NextLinkShape(s, k);
    NextLinkShape(t, j);
    var aRest := Pad8(k - 1) + ":" + ("NEXT_USAGE:" + UsageOf(s, k));
    var bRest := Pad8(j - 1) + ":" + ("NEXT_USAGE:" + UsageOf(t, j));
    assert Link(s, k).id[11..] == Underscored(s) + ":" + aRest;
    assert Link(t, j).id[11..] == Underscored(t) + ":" + bRest;
    SplitAtColon(Underscored(s), aRest, Underscored(t), bRest);
    PaddedDenotes(k - 1);
    PaddedDenotes(j - 1);
    SplitAtColon(Pad8(k - 1), "NEXT_USAGE:" + UsageOf(s, k), Pad8(j - 1), "NEXT_USAGE:" + UsageOf(t, j));
  }

  lemma LinkMark(s: string, k: nat)
    requires k >= 1
    ensures |Link(s, k).id| > 10 && Link(s, k).id[10] == if k == 1 then '_' else ':'
  {
  }

  lemma LinkInjective(s: string, k: nat, t: string, j: nat)
    requires k >= 1 && j >= 1 && Link(s, k).id == Link(t, j).id
    ensures Underscored(s) == Underscored(t) && k == j
  {
    if k == 1 && j == 1 {
      FirstLinkInjective(s, t);
    } else if k >= 2 && j >= 2 {
      NextLinkInjective(s, k, t, j);
    } else {
      LinkMark(s, k);
      LinkMark(t, j);
    }
  }

  // --- the invariant -----------------------------------------------------------------------------------

  ghost predicate HeadsHold(nodes: map<string, Node>, h: seq<Append>) {
    && (forall s :: Count(h, s) == 0 ==> HeadId(s) !in nodes)
    && (forall s :: Count(h, s) > 0 ==> HeadId(s) in nodes && nodes[HeadId(s)] == HeadNode(s, Count(h, s)))
  }

  ghost predicate UsagesHold(nodes: map<string, Node>, h: seq<Append>) {
    forall s, k :: 1 <= k <= Count(h, s) ==> UsageOf(s, k) in nodes && nodes[UsageOf(s, k)] == UsageNode(s, k, Nth(h, s, k))
  }

  ghost predicate NoStrayUsage(nodes: map<string, Node>, h: seq<Append>) {
    forall id :: id in nodes && nodes[id].kind == "usage_ledger_event" ==> exists s, k :: 1 <= k <= Count(h, s) && id == UsageOf(s, k)
  }

  ghost predicate NodesHold(nodes: map<string, Node>, h: seq<Append>) {
    HeadsHold(nodes, h) && UsagesHold(nodes, h) && NoStrayUsage(nodes, h)
  }

  ghost predicate EdgesHold(edges: map<string, Edge>, h: seq<Append>) {
    && (forall s, k :: 1 <= k <= Count(h, s) ==> Link(s, k).id in edges && edges[Link(s, k).id] == Link(s, k))
    && (forall id :: id in edges && LedgerKind(edges[id].kind) ==>
                       exists s, k :: 1 <= k <= Count(h, s) && edges[id] == Link(s, k))
  }

  ghost predicate Holds<K, V>(g: Graph<K, V>, h: seq<Append>) {
    NodesHold(g.nodes, h) && EdgesHold(g.edges, h)
  }

  // The last append of a history is event number Count of its subject.
  lemma CountGrows(h: seq<Append>, a: Append)
    ensures forall s :: Count(h + [a], s) == Count(h, s) + if s == a.subject then 1 else 0
    ensures forall s, k :: 1 <= k <= Count(h, s) ==> Nth(h + [a], s, k) == Nth(h, s, k)
    ensures Nth(h + [a], a.subject, Count(h, a.subject) + 1) == a.event
  {
    assert (h + [a])[..|h|] == h;
  }

  function AfterAppend(nodes: map<string, Node>, a: Append, n: nat): map<string, Node> {
    nodes[UsageOf(a.subject, n) := UsageNode(a.subject, n, a.event)][HeadId(a.subject) := HeadNode(a.subject, n)]
  }

  // One append, seen as what becomes of the nodes and the edges.
  lemma AppendEffect<K, V>(g: Graph<K, V>, h: seq<Append>, a: Append)
    requires HeadsHold(g.nodes, h)
    ensures var n := Count(h, a.subject) + 1;
            var g' := AppendUsage(g, a.subject, a.event);
            && g'.nodes == AfterAppend(g.nodes, a, n)
            && g'.edges == g.edges[Link(a.subject, n).id := Link(a.subject, n)]
            && g'.events == g.events && g'.projections == g.projections
  {
    hide Count, Pad8, AppendUsage;
    var n := Count(h, a.subject) + 1;
    LedgerRecordsUnfold(g, a.subject, a.event);
    HeadIsNotUsage(a.subject, a.subject, n);
    assert UsageOf(a.subject, n) != "";
  }

  lemma HeadsKept(nodes: map<string, Node>, h: seq<Append>, a: Append)
    requires HeadsHold(nodes, h)
    ensures HeadsHold(AfterAppend(nodes, a, Count(h, a.subject) + 1), h + [a])
  {
    hide HeadId, UsageId, UsageOf, Count;
    var nodes' := AfterAppend(nodes, a, Count(h, a.subject) + 1);
    CountGrows(h, a);
    forall s
      ensures Count(h + [a], s) == 0 ==> HeadId(s) !in nodes'
      ensures Count(h + [a], s) > 0 ==> HeadId(s) in nodes' && nodes'[HeadId(s)] == HeadNode(s, Count(h + [a], s))
    {
      HeadIsNotUsage(s, a.subject, Count(h, a.subject) + 1);
      if HeadId(s) == HeadId(a.subject) { HeadIdInjective(s, a.subject); }
    }
  }

  lemma UsagesKept(nodes: map<string, Node>, h: seq<Append>, a: Append)
    requires UsagesHold(nodes, h) && SafeSubjects(h + [a])
    ensures UsagesHold(AfterAppend(nodes, a, Count(h, a.subject) + 1), h + [a])
  {
    hide HeadId, UsageId, UsageOf, Count, Nth;
    var nodes' := AfterAppend(nodes, a, Count(h, a.subject) + 1);
    CountGrows(h, a);
    forall s, k | 1 <= k <= Count(h + [a], s)
      ensures UsageOf(s, k) in nodes' && nodes'[UsageOf(s, k)] == UsageNode(s, k, Nth(h + [a], s, k))
    {
      HeadIsNotUsage(a.subject, s, k);
      if UsageOf(s, k) == UsageOf(a.subject, Count(h, a.subject) + 1) {
        UsageOfInjective(s, k, a.subject, Count(h, a.subject) + 1);
        SafeSubjectIsSame(h + [a], s, a.subject);
      }
    }
  }

  lemma NodesKept(nodes: map<string, Node>, h: seq<Append>, a: Append)
    requires NodesHold(nodes, h) && SafeSubjects(h + [a])
    ensures NodesHold(AfterAppend(nodes, a, Count(h, a.subject) + 1), h + [a])
  {
    hide HeadId, UsageId, UsageOf, Count, HeadsHold, UsagesHold;
    var n, h' := Count(h, a.subject) + 1, h + [a];
    var nodes' := AfterAppend(nodes, a, n);
    HeadsKept(nodes, h, a);
    UsagesKept(nodes, h, a);
    CountGrows(h, a);
    forall id | id in nodes' && nodes'[id].kind == "usage_ledger_event"
      ensures exists s, k :: 1 <= k <= Count(h', s) && id == UsageOf(s, k)
    {
      if id == UsageOf(a.subject, n) {
        assert 1 <= n <= Count(h', a.subject);
      } else if id != HeadId(a.subject) {
        var s, k :| 1 <= k <= Count(h, s) && id == UsageOf(s, k);
        assert 1 <= k <= Count(h', s);
      }
    }
  }

  lemma SafeSubjectIsSame(h: seq<Append>, s: string, t: string)
    requires SafeSubjects(h) && Count(h, s) > 0 && Count(h, t) > 0 && Underscored(s) == Underscored(t)
    ensures s == t
  {
    CountedSubject(h, s);
    CountedSubject(h, t);
  }

  lemma EdgesKept(edges: map<string, Edge>, h: seq<Append>, a: Append)
    requires EdgesHold(edges, h) && SafeSubjects(h + [a])
    ensures var n := Count(h, a.subject) + 1;
            EdgesHold(edges[Link(a.subject, n).id := Link(a.subject, n)], h + [a])
  {
    hide HeadId, UsageId, UsageOf, Count, Nth;
    var n, h' := Count(h, a.subject) + 1, h + [a];
    var edges' := edges[Link(a.subject, n).id := Link(a.subject, n)];
    CountGrows(h, a);
    forall s, k | 1 <= k <= Count(h', s) ensures Link(s, k).id in edges' && edges'[Link(s, k).id] == Link(s, k) {
      if Link(s, k).id == Link(a.subject, n).id {
        LinkInjective(s, k, a.subject, n);
        SafeSubjectIsSame(h', s, a.subject);
      }
    }
    forall id | id in edges' && LedgerKind(edges'[id].kind)
      ensures exists s, k :: 1 <= k <= Count(h', s) && edges'[id] == Link(s, k)
    {
      if id == Link(a.subject, n).id {
        assert 1 <= n <= Count(h', a.subject);
      } else {
        var s, k :| 1 <= k <= Count(h, s) && edges[id] == Link(s, k);
        assert 1 <= k <= Count(h', s);
      }
    }
  }

  // --- runs -----------------------------------------------------------------------------------------------

  datatype Op<K, V> = AppendOp(append: Append) | Foreign(record: Record<K, V>)

  // Everything else the gateway writes: other node ids and kinds, other edge kinds.
  predicate ForeignRecord<K, V>(r: Record<K, V>) {
    match r
    case NodeRecord(n) => !("usage" <= n.id) && n.kind != "usage_ledger_event"
    case EdgeRecord(e) => !("edge:usage" <= e.id) && !LedgerKind(e.kind)
    case _ => true
  }

  function Run<K, V>(ops: seq<Op<K, V>>): Graph<K, V> {
    if ops == [] then Graph(map[], map[], [], map[])
    else
      var g := Run(ops[..|ops| - 1]);
      match ops[|ops| - 1]
      case AppendOp(a) => AppendUsage(g, a.subject, a.event)
      case Foreign(r) => Apply(g, r)
  }

  function History<K, V>(ops: seq<Op<K, V>>): seq<Append> {
    if ops == [] then []
    else
      var h := History(ops[..|ops| - 1]);
      match ops[|ops| - 1]
      case AppendOp(a) => h + [a]
      case Foreign(_) => h
  }

  lemma ForeignNodeKeeps(nodes: map<string, Node>, h: seq<Append>, n: Node)
    requires NodesHold(nodes, h) && !("usage" <= n.id) && n.kind != "usage_ledger_event"
    ensures NodesHold(nodes[n.id := n], h)
  {
    hide UsageId, Count, Nth;
    var nodes' := nodes[n.id := n];
    forall s ensures HeadId(s) != n.id { assert "usage" <= HeadId(s); }
    forall s, k ensures UsageOf(s, k) != n.id { UsageStart(s, k); }
    hide HeadId, UsageOf;
    assert HeadsHold(nodes', h);
    assert UsagesHold(nodes', h);
  }

  lemma UsageStart(s: string, k: nat)
    ensures "usage" <= UsageOf(s, k)
  {
    hide Pad8, Underscored;
  }

  lemma LinkStart(s: string, k: nat)
    requires k >= 1
    ensures "edge:usage" <= Link(s, k).id
  {
    hide Pad8, Underscored, UsageId;
    if k > 1 { UsageStart(s, k - 1); }
  }

  lemma ForeignEdgeKeeps(edges: map<string, Edge>, h: seq<Append>, e: Edge)
    requires EdgesHold(edges, h) && !("edge:usage" <= e.id) && !LedgerKind(e.kind)
    ensures EdgesHold(edges[e.id := e], h)
  {
    hide Link, Count;
    forall s, k | k >= 1 ensures Link(s, k).id != e.id { LinkStart(s, k); }
  }

  // After any run the graph holds one chain per subject, equal to that subject's history.
  lemma {:induction false} LedgerIsHistory<K, V>(ops: seq<Op<K, V>>)
    requires SafeSubjects(History(ops))
    requires forall i :: 0 <= i < |ops| && ops[i].Foreign? ==> ForeignRecord(ops[i].record)
    ensures Holds(Run(ops), History(ops))
  {
    if ops != [] {
      var n := |ops| - 1;
      var init, h := ops[..n], History(ops[..n]);
      assert h <= History(ops);
      forall i, j | 0 <= i < |h| && 0 <= j < |h| && Underscored(h[i].subject) == Underscored(h[j].subject)
        ensures h[i].subject == h[j].subject
      {
        assert History(ops)[i] == h[i] && History(ops)[j] == h[j];
      }
      assert forall i :: 0 <= i < n ==> init[i] == ops[i];
      LedgerIsHistory(init);
      match ops[n]
      case AppendOp(a) =>
        AppendEffect(Run(init), h, a);
        NodesKept(Run(init).nodes, h, a);
        EdgesKept(Run(init).edges, h, a);
      case Foreign(r) =>
        if r.NodeRecord? { ForeignNodeKeeps(Run(init).nodes, h, r.node); }
        if r.EdgeRecord? { ForeignEdgeKeeps(Run(init).edges, h, r.edge); }
    }
  }

  // Subjects that collide after the replacement always break the chains: both have a first event, and the two
  // share one node.
  lemma LedgerIsHistoryExactly<K, V>(ops: seq<Op<K, V>>)
    requires forall i :: 0 <= i < |ops| && ops[i].Foreign? ==> ForeignRecord(ops[i].record)
    ensures Holds(Run(ops), History(ops)) <==> SafeSubjects(History(ops))
  {
    hide Run, History, HeadsHold, NoStrayUsage, EdgesHold;
    var h := History(ops);
    if SafeSubjects(h) {
      LedgerIsHistory(ops);
    } else if Holds(Run(ops), h) {
      forall i, j | 0 <= i < |h| && 0 <= j < |h| && Underscored(h[i].subject) == Underscored(h[j].subject)
        ensures h[i].subject == h[j].subject
      {
        CountedSubject(h, h[i].subject);
        CountedSubject(h, h[j].subject);
        assert UsageOf(h[i].subject, 1) == UsageOf(h[j].subject, 1);
        assert UsageNode(h[i].subject, 1, Nth(h, h[i].subject, 1)) == UsageNode(h[j].subject, 1, Nth(h, h[j].subject, 1));
      }
    }
  }

  // --- walking -----------------------------------------------------------------------------------------------

  ghost predicate LeadsTo(edges: map<string, Edge>, source: string, target: string) {
    exists id :: id in edges && LedgerKind(edges[id].kind) && edges[id].source == source && edges[id].target == target
  }

  // The first step out of a head, and the only one.
  lemma StepFromHead(edges: map<string, Edge>, h: seq<Append>, s: string, t: string)
    requires EdgesHold(edges, h) && Count(h, s) > 0
    ensures LeadsTo(edges, HeadId(s), t) <==> t == UsageOf(s, 1)
  {
    hide HeadId, UsageId, UsageOf, Count;
    assert edges[Link(s, 1).id] == Link(s, 1);
    if LeadsTo(edges, HeadId(s), t) {
      var id :| id in edges && LedgerKind(edges[id].kind) && edges[id].source == HeadId(s) && edges[id].target == t;
      var r, j :| 1 <= j <= Count(h, r) && edges[id] == Link(r, j);
      if j == 1 { HeadIdInjective(s, r); } else { HeadIsNotUsage(s, r, j - 1); }
    }
  }

  // No branch, no cycle, no step into another subject's chain.
  lemma StepFromUsage(edges: map<string, Edge>, h: seq<Append>, s: string, k: nat, t: string)
    requires EdgesHold(edges, h) && SafeSubjects(h) && 1 <= k <= Count(h, s)
    ensures LeadsTo(edges, UsageOf(s, k), t) <==> k < Count(h, s) && t == UsageOf(s, k + 1)
  {
    hide HeadId, UsageId, UsageOf, Count;
    if k < Count(h, s) { assert edges[Link(s, k + 1).id] == Link(s, k + 1); }
    if LeadsTo(edges, UsageOf(s, k), t) {
      var id :| id in edges && LedgerKind(edges[id].kind) && edges[id].source == UsageOf(s, k) && edges[id].target == t;
      var r, j :| 1 <= j <= Count(h, r) && edges[id] == Link(r, j);
      if j == 1 {
        HeadIsNotUsage(r, s, k);
      } else {
        UsageOfInjective(s, k, r, j - 1);
        SafeSubjectIsSame(h, s, r);
      }
    }
  }

  ghost function Walk(edges: map<string, Edge>, from: string, fuel: nat): seq<string>
    decreases fuel
  {
    if fuel == 0 || !(exists t :: LeadsTo(edges, from, t)) then []
    else
      var t :| LeadsTo(edges, from, t);
      [t] + Walk(edges, t, fuel - 1)
  }

  function Chain(s: string, first: nat, last: nat): seq<string>
    decreases last + 1 - first
  {
    if first > last then [] else [UsageOf(s, first)] + Chain(s, first + 1, last)
  }

  lemma {:induction false} WalkFrom(edges: map<string, Edge>, h: seq<Append>, s: string, k: nat, fuel: nat)
    requires EdgesHold(edges, h) && SafeSubjects(h)
    requires 1 <= k <= Count(h, s) && fuel >= Count(h, s) - k
    ensures Walk(edges, UsageOf(s, k), fuel) == Chain(s, k + 1, Count(h, s))
    decreases Count(h, s) - k
  {
    hide HeadId, UsageId, UsageOf;
    forall t { StepFromUsage(edges, h, s, k, t); }
    if k < Count(h, s) {
      assert LeadsTo(edges, UsageOf(s, k), UsageOf(s, k + 1));
      WalkFrom(edges, h, s, k + 1, fuel - 1);
    }
  }

  lemma WalkFromHead(edges: map<string, Edge>, h: seq<Append>, s: string, fuel: nat)
    requires EdgesHold(edges, h) && SafeSubjects(h)
    requires 0 < Count(h, s) <= fuel
    ensures Walk(edges, HeadId(s), fuel) == Chain(s, 1, Count(h, s))
  {
    hide HeadId, UsageId, UsageOf, EdgesHold;
    forall t { StepFromHead(edges, h, s, t); }
    assert LeadsTo(edges, HeadId(s), UsageOf(s, 1));
    WalkFrom(edges, h, s, 1, fuel - 1);
  }

  // Walking from a head visits usage nodes 1..n in order, each once, carries the subject's events in the order
  // they were appended, and ends at the tail the head records.
  lemma WalkIsTheHistory<K, V>(ops: seq<Op<K, V>>, s: string, fuel: nat)
    requires SafeSubjects(History(ops))
    requires forall i :: 0 <= i < |ops| && ops[i].Foreign? ==> ForeignRecord(ops[i].record)
    requires 0 < Count(History(ops), s) <= fuel
    ensures var g, n := Run(ops), Count(History(ops), s);
            && Walk(g.edges, HeadId(s), fuel) == Chain(s, 1, n)
            && HeadId(s) in g.nodes && g.nodes[HeadId(s)].payload == LaneHead(s, Some(UsageOf(s, n)), n)
            && (forall k :: 1 <= k <= n ==>
                  UsageOf(s, k) in g.nodes && g.nodes[UsageOf(s, k)].payload == Usage(k, s, Nth(History(ops), s, k)))
  {
    hide HeadId, UsageId, UsageOf;
    var g, h := Run(ops), History(ops);
    LedgerIsHistory(ops);
    WalkFromHead(g.edges, h, s, fuel);
  }

  // --- any subjects at all: who keeps the node ----------------------------------------------------------------

  // The number of append i within its own subject, and the node it writes.
  function Rank(h: seq<Append>, i: nat): nat
    requires i < |h|
  {
    Count(h[..i + 1], h[i].subject)
  }

  function Place(h: seq<Append>, i: nat): string
    requires i < |h|
  {
    UsageOf(h[i].subject, Rank(h, i))
  }

  // No later append writes the same node.
  ghost predicate LastThere(h: seq<Append>, i: nat)
    requires i < |h|
  {
    forall j :: i < j < |h| ==> Place(h, j) != Place(h, i)
  }

  ghost predicate Survives(nodes: map<string, Node>, h: seq<Append>, i: nat)
    requires i < |h|
  {
    Place(h, i) in nodes && nodes[Place(h, i)] == UsageNode(h[i].subject, Rank(h, i), h[i].event)
  }

  ghost predicate LastSurvive(nodes: map<string, Node>, h: seq<Append>) {
    forall i: nat :: i < |h| && LastThere(h, i) ==> Survives(nodes, h, i)
  }

  ghost predicate OnlyTheLast(nodes: map<string, Node>, h: seq<Append>) {
    forall id :: id in nodes && nodes[id].kind == "usage_ledger_event" ==> exists i: nat :: i < |h| && LastThere(h, i) && Place(h, i) == id
  }

  ghost predicate LastStay(nodes: map<string, Node>, h: seq<Append>) { LastSurvive(nodes, h) && OnlyTheLast(nodes, h) }

  lemma RankGrows(h: seq<Append>, a: Append)
    ensures forall i: nat :: i < |h| ==> Rank(h + [a], i) == Rank(h, i) && Place(h + [a], i) == Place(h, i)
    ensures Rank(h + [a], |h|) == Count(h, a.subject) + 1
  {
    hide UsageOf;
    forall i: nat | i < |h| ensures Rank(h + [a], i) == Rank(h, i) { assert (h + [a])[..i + 1] == h[..i + 1]; }
    assert (h + [a])[..|h| + 1] == h + [a];
    CountGrows(h, a);
  }

  lemma LastGrows(h: seq<Append>, a: Append)
    ensures LastThere(h + [a], |h|)
    ensures forall i: nat :: i < |h| ==> (LastThere(h + [a], i) <==> LastThere(h, i) && Place(h, i) != Place(h + [a], |h|))
  {
    hide UsageOf, Rank, Place;
    RankGrows(h, a);
    forall i: nat | i < |h| ensures LastThere(h + [a], i) <==> LastThere(h, i) && Place(h, i) != Place(h + [a], |h|) {
      if LastThere(h + [a], i) {
        forall j | i < j < |h| ensures Place(h, j) != Place(h, i) { assert Place(h + [a], j) != Place(h + [a], i); }
      }
    }
  }

  lemma PlacesAreNoHeads(h: seq<Append>, subject: string)
    ensures forall i: nat :: i < |h| ==> Place(h, i) != HeadId(subject)
  {
    hide Count, UsageOf, HeadId;
    forall i: nat | i < |h| ensures Place(h, i) != HeadId(subject) { HeadIsNotUsage(subject, h[i].subject, Rank(h, i)); }
  }

  lemma LastStaysStep(nodes: map<string, Node>, h: seq<Append>, a: Append)
    requires LastStay(nodes, h)
    ensures LastStay(AfterAppend(nodes, a, Count(h, a.subject) + 1), h + [a])
  {
    var h', n := h + [a], Count(h, a.subject) + 1;
    RankGrows(h, a);
    LastGrows(h, a);
    PlacesAreNoHeads(h', a.subject);
    assert Place(h', |h|) == UsageOf(a.subject, n);
    hide Rank, Place, LastThere, UsageOf, HeadId, Count, AfterAppend, LastSurvive, OnlyTheLast;
    LastStaysAt(nodes, h, a, n);
    StrayStep(nodes, h, a, n);
  }

  lemma LastStaysAt(nodes: map<string, Node>, h: seq<Append>, a: Append, n: nat)
    requires LastSurvive(nodes, h) && Rank(h + [a], |h|) == n
    requires forall i: nat :: i < |h| ==> Rank(h + [a], i) == Rank(h, i) && Place(h + [a], i) == Place(h, i)
    requires forall i: nat :: i < |h| && LastThere(h + [a], i) ==> LastThere(h, i) && Place(h, i) != Place(h + [a], |h|)
    requires forall i: nat :: i < |h| + 1 ==> Place(h + [a], i) != HeadId(a.subject)
    ensures LastSurvive(AfterAppend(nodes, a, n), h + [a])
  {
    var h' := h + [a];
    assert Place(h', |h|) == UsageOf(a.subject, n);
    hide Rank, Place, LastThere, UsageOf, HeadId, Count, UsageNode, HeadNode;
    forall i: nat | i < |h'| && LastThere(h', i) ensures Survives(AfterAppend(nodes, a, n), h', i) {
      if i < |h| { assert Survives(nodes, h, i); }
    }
  }

  lemma StrayStep(nodes: map<string, Node>, h: seq<Append>, a: Append, n: nat)
    requires OnlyTheLast(nodes, h) && LastThere(h + [a], |h|) && Place(h + [a], |h|) == UsageOf(a.subject, n)
    requires forall i: nat :: i < |h| ==> Place(h + [a], i) == Place(h, i)
    requires forall i: nat :: i < |h| && LastThere(h, i) && Place(h, i) != Place(h + [a], |h|) ==> LastThere(h + [a], i)
    ensures OnlyTheLast(AfterAppend(nodes, a, n), h + [a])
  {
    var h', nodes' := h + [a], AfterAppend(nodes, a, n);
    assert HeadNode(a.subject, n).kind[6] == 'l' && HeadNode(a.subject, n).kind[7] == 'a';
    hide Rank, Place, LastThere, UsageOf, HeadId, Count, UsageNode, Survives;
    forall id | id in nodes' && nodes'[id].kind == "usage_ledger_event"
      ensures exists i: nat :: i < |h'| && LastThere(h', i) && Place(h', i) == id
    {
      if id == UsageOf(a.subject, n) {
        assert LastThere(h', |h|) && Place(h', |h|) == id;
      } else {
        var i: nat :| i < |h| && LastThere(h, i) && Place(h, i) == id;
        assert LastThere(h', i) && Place(h', i) == id;
      }
    }
  }

  lemma LastStaysForeign(nodes: map<string, Node>, h: seq<Append>, n: Node)
    requires LastStay(nodes, h) && !("usage" <= n.id) && n.kind != "usage_ledger_event"
    ensures LastStay(nodes[n.id := n], h)
  {
    forall i: nat | i < |h| ensures Place(h, i) != n.id { UsageStart(h[i].subject, Rank(h, i)); }
    hide Rank, Place, LastThere;
    forall i: nat | i < |h| && LastThere(h, i) ensures Survives(nodes[n.id := n], h, i) { assert Survives(nodes, h, i); }
  }

  // Heads are kept apart by the subjects themselves, usage nodes by who wrote last.
  lemma {:induction false} AlwaysLastStay<K, V>(ops: seq<Op<K, V>>)
    requires forall i :: 0 <= i < |ops| && ops[i].Foreign? ==> ForeignRecord(ops[i].record)
    ensures HeadsHold(Run(ops).nodes, History(ops)) && LastStay(Run(ops).nodes, History(ops))
  {
    hide HeadId, UsageOf;
    if ops != [] {
      var n := |ops| - 1;
      var init, h := ops[..n], History(ops[..n]);
      assert forall i :: 0 <= i < n ==> init[i] == ops[i];
      AlwaysLastStay(init);
      hide HeadsHold, LastStay, AppendUsage;
      match ops[n]
      case AppendOp(a) =>
        AppendEffect(Run(init), h, a);
        HeadsKept(Run(init).nodes, h, a);
        LastStaysStep(Run(init).nodes, h, a);
      case Foreign(r) =>
        if r.NodeRecord? {
          ForeignHeadKeeps(Run(init).nodes, h, r.node);
          LastStaysForeign(Run(init).nodes, h, r.node);
        }
    }
  }

  lemma ForeignHeadKeeps(nodes: map<string, Node>, h: seq<Append>, n: Node)
    requires HeadsHold(nodes, h) && !("usage" <= n.id)
    ensures HeadsHold(nodes[n.id := n], h)
  {
    hide Count;
    forall s ensures HeadId(s) != n.id { assert "usage" <= HeadId(s); }
    hide HeadId;
  }

  lemma {:induction false} LastWriter(h: seq<Append>, i: nat) returns (j: nat)
    requires i < |h|
    ensures i <= j < |h| && Place(h, j) == Place(h, i) && LastThere(h, j)
    decreases |h| - i
  {
    hide Rank, Place;
    if LastThere(h, i) {
      j := i;
    } else {
      var k :| i < k < |h| && Place(h, k) == Place(h, i);
      j := LastWriter(h, k);
    }
  }

  lemma {:induction false} CountRises(h: seq<Append>, n: nat, subject: string)
    requires n <= |h|
    ensures Count(h[..n], subject) <= Count(h, subject)
  {
    if n < |h| {
      CountRises(h[..|h| - 1], n, subject);
      assert h[..|h| - 1][..n] == h[..n];
    } else {
      assert h[..n] == h;
    }
  }

  // Two appends of one subject never share a node.
  lemma OwnPlacesDiffer(h: seq<Append>, i: nat, j: nat)
    requires i < j < |h| && h[i].subject == h[j].subject
    ensures Place(h, i) != Place(h, j)
  {
    assert h[..j + 1][..j] == h[..j] && h[..j][..i + 1] == h[..i + 1];
    CountRises(h[..j], i + 1, h[i].subject);
    if Place(h, i) == Place(h, j) { UsageOfInjective(h[i].subject, Rank(h, i), h[j].subject, Rank(h, j)); }
  }

  // For every run and every append of it: its event is in the graph afterwards if and only if no later append of
  // a subject with the same safe name has the same number within its own subject.
  lemma EventSurvivesExactly<K, V>(ops: seq<Op<K, V>>, i: nat)
    requires forall j :: 0 <= j < |ops| && ops[j].Foreign? ==> ForeignRecord(ops[j].record)
    requires i < |History(ops)|
    ensures var h := History(ops);
            Survives(Run(ops).nodes, h, i)
            <==> forall j :: i < j < |h| ==> !(Underscored(h[j].subject) == Underscored(h[i].subject) && Rank(h, j) == Rank(h, i))
  {
    var h, nodes := History(ops), Run(ops).nodes;
    AlwaysLastStay(ops);
    var last := LastWriter(h, i);
    forall j | i < j < |h|
      ensures Place(h, j) == Place(h, i) <==> Underscored(h[j].subject) == Underscored(h[i].subject) && Rank(h, j) == Rank(h, i)
    {
      if Place(h, j) == Place(h, i) { UsageOfInjective(h[j].subject, Rank(h, j), h[i].subject, Rank(h, i)); }
    }
    hide Rank, Place, Run, HeadsHold, History;
    assert Survives(nodes, h, last);
    if Survives(nodes, h, i) && last != i {
      OwnPlacesDiffer(h, i, last);
    }
  }

  // --- the scan for an event of a request ------------------------------------------------------------------

  ghost predicate Scan(nodes: map<string, Node>, requestId: string) {
    exists id :: id in nodes && nodes[id].kind == "usage_ledger_event" && nodes[id].payload.Usage?
                 && nodes[id].payload.event.requestId == requestId
  }

  // The settlement retry looks for a usage node of its request. In every run it finds one exactly when an event
  // of the request still has its node.
  lemma ScanFindsSurvivors<K, V>(ops: seq<Op<K, V>>, requestId: string)
    requires forall i :: 0 <= i < |ops| && ops[i].Foreign? ==> ForeignRecord(ops[i].record)
    ensures Scan(Run(ops).nodes, requestId)
            <==> exists i: nat :: i < |History(ops)| && LastThere(History(ops), i) && History(ops)[i].event.requestId == requestId
  {
    var nodes, h := Run(ops).nodes, History(ops);
    AlwaysLastStay(ops);
    hide Rank, Place, LastThere, Run, History, HeadsHold;
    if Scan(nodes, requestId) {
      var id :| id in nodes && nodes[id].kind == "usage_ledger_event" && nodes[id].payload.Usage?
                && nodes[id].payload.event.requestId == requestId;
      var i: nat :| i < |h| && LastThere(h, i) && Place(h, i) == id;
      assert Survives(nodes, h, i);
    }
    if i: nat :| i < |h| && LastThere(h, i) && h[i].event.requestId == requestId {
      assert Survives(nodes, h, i);
    }
  }

  // With subjects that stay apart that is exactly when one was appended.
  lemma ScanFindsAppends<K, V>(ops: seq<Op<K, V>>, requestId: string)
    requires SafeSubjects(History(ops))
    requires forall i :: 0 <= i < |ops| && ops[i].Foreign? ==> ForeignRecord(ops[i].record)
    ensures Scan(Run(ops).nodes, requestId)
            <==> exists i :: 0 <= i < |History(ops)| && History(ops)[i].event.requestId == requestId
  {
    var h := History(ops);
    ScanFindsSurvivors(ops, requestId);
    forall i: nat, j | i < |h| && i < j < |h| ensures Place(h, j) != Place(h, i) {
      if Place(h, j) == Place(h, i) {
        UsageOfInjective(h[j].subject, Rank(h, j), h[i].subject, Rank(h, i));
        OwnPlacesDiffer(h, i, j);
      }
    }
    hide Run, History, Scan, Place, Rank;
  }

  lemma TwoAppends<K, V>(first: Append, second: Append)
    ensures History<K, V>([AppendOp(first), AppendOp(second)]) == [first, second]
  {
    var ops: seq<Op<K, V>> := [AppendOp(first), AppendOp(second)];
    var none: seq<Op<K, V>> := [];
    assert ops[..1][..0] == none;
    assert History(none) == [];
    assert History(ops[..1]) == [first];
    assert History(ops) == History(ops[..1]) + [second];
  }

  lemma TwoRanks(first: Append, second: Append)
    requires first.subject != second.subject
    ensures Rank([first, second], 0) == 1 && Rank([first, second], 1) == 1
  {
    var h := [first, second];
    assert h[..1] == [first] && h[..2] == h;
    CountOne(first);
    assert Count(h, second.subject) == Count([first], second.subject) + 1;
  }

  lemma CountOne(a: Append)
    ensures forall s :: Count([a], s) == if s == a.subject then 1 else 0
  {
    assert [a][..0] == [];
  }

  // The first events of two subjects: the earlier one survives exactly when the safe names differ. With
  // "team:a" and "team_a" the second append overwrites the first one's usage node.
  lemma EarlierEventSurvivesExactly<K, V>(first: Append, second: Append)
    requires first.subject != second.subject
    ensures var g := Run<K, V>([AppendOp(first), AppendOp(second)]);
            (UsageOf(first.subject, 1) in g.nodes && g.nodes[UsageOf(first.subject, 1)] == UsageNode(first.subject, 1, first.event))
            <==> Underscored(first.subject) != Underscored(second.subject)
  {
    var ops: seq<Op<K, V>> := [AppendOp(first), AppendOp(second)];
    var h := [first, second];
    TwoAppends<K, V>(first, second);
    TwoRanks(first, second);
    EventSurvivesExactly(ops, 0);
    hide Run, History, Rank, UsageOf;
  }
}
