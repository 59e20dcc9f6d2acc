/** Runs of quota changes: every cached list is the one the graph defines, and the policy in force for a quota is
    the one its own changes say, the last append first. */
module QuotaRuns {
  import opened Prelude
  import opened Calendar
  import opened Text
  import opened TextOrder
  import opened QuotaPolicy

  datatype Op =
    | Set(target: Target, text: string, terms: Terms, nowMs: nat)
    | Append(target: Target, period: Option<string>, terms: Terms, revoked: bool, reason: string, nowMs: nat)    // a revoke has revoked set

  datatype Book = Book(graph: Graph, lists: map<(string, string), seq<Policy>>)

  function PeriodOf(op: Op): Option<string> { if op.Set? then Some(op.text) else op.period }

  predicate Accepted(op: Op) {
    op.target.lane in LANES && !BadPeriod(PeriodOf(op)) && (Limited(op.terms) || (op.Append? && op.revoked))
  }

  // The revision number the id search arrives at.
  ghost function NextFree(nodes: map<string, Policy>, t: Target, ms: nat): (free: nat)
    ensures FirstFree(nodes, t, ms, free)
    decreases |Taken(nodes, t, ms)|
  {
    if QuotaId(t, Some(ms)) in nodes then
      TakenShrinks(nodes, t, ms);
      NextFree(nodes, t, ms + 1)
    else ms
  }

  ghost function RevisionOf(nodes: map<string, Policy>, op: Op): nat {
    if op.Set? then op.nowMs else NextFree(nodes, op.target, op.nowMs)
  }

  ghost function IdOf(nodes: map<string, Policy>, op: Op): string {
    if op.Set? then QuotaId(op.target, None) else QuotaId(op.target, Some(RevisionOf(nodes, op)))
  }

  // The payload an operation writes, given its revision number.
  function PolicyOf(op: Op, revision: nat): Policy {
    match op
    case Set(t, text, terms, _) => NewPolicy(t, revision, false, Parsed(Some(text), terms), "")
    case Append(t, period, terms, revoked, reason, _) => NewPolicy(t, revision, revoked, Parsed(period, terms), reason)
  }

  ghost function Step(b: Book, op: Op): Book {
    if !Accepted(op) then b
    else
      var t := op.target;
      var g := PutPolicy(b.graph, t, IdOf(b.graph.nodes, op), PolicyOf(op, RevisionOf(b.graph.nodes, op)));
      Book(g, b.lists[(t.lane, t.subject) := InForce(g, t.lane, t.subject)])
  }

  // Which changes are accepted: those of the four lanes, with a period that is a period's name if one is given, and
  // with a limit unless they revoke.
  lemma AcceptedExactly(op: Op)
    ensures Accepted(op) <==>
              && op.target.lane in ["principal", "user", "key", "token"]
              && (op.Set? ==> ParsePeriod(op.text).Some?)
              && (op.Append? && op.period.Some? ==> ParsePeriod(op.period.value).Some?)
              && (op.terms.maxUsd.Some? || op.terms.maxTokens.Some? || op.terms.maxRequests.Some? || (op.Append? && op.revoked))
  {
    hide ParsePeriod;
  }

  // What an accepted change puts on its node: the quota's lane, subject and name, the limits as given, and the period
  // that was named.
  ghost predicate Says(p: Policy, op: Op) {
    && p.lane == op.target.lane && p.subject == op.target.subject && p.name == op.target.name
    && p.terms.maxUsd == op.terms.maxUsd && p.terms.maxTokens == op.terms.maxTokens && p.terms.maxRequests == op.terms.maxRequests
    && (op.Set? ==> p.terms.period == ParsePeriod(op.text) && !p.revoked && p.reason == "")
    && (op.Append? ==> p.revoked == op.revoked && p.reason == op.reason)
    && (op.Append? ==> if op.period.Some? then p.terms.period == ParsePeriod(op.period.value) else p.terms.period.None?)
  }

  lemma WrittenAsGiven(b: Book, op: Op)
    requires Accepted(op)
    ensures var g := Step(b, op).graph;
            && IdOf(b.graph.nodes, op) in g.nodes && Says(g.nodes[IdOf(b.graph.nodes, op)], op)
            && Link(op.target.subject, IdOf(b.graph.nodes, op)) in g.links
            && (forall id :: id in b.graph.nodes && id != IdOf(b.graph.nodes, op) ==> id in g.nodes && g.nodes[id] == b.graph.nodes[id])
            && (op.Append? ==> IdOf(b.graph.nodes, op) !in b.graph.nodes)
  {
    hide InForce, ParsePeriod, QuotaId;
  }

  lemma FirstFreeIsUnique(nodes: map<string, Policy>, t: Target, ms: nat, a: nat, b: nat)
    requires FirstFree(nodes, t, ms, a) && FirstFree(nodes, t, ms, b)
    ensures a == b
  {
    hide QuotaId;
  }

  // The registry's methods are these steps.
  method Perform(registry: Registry, op: Op) returns (accepted: bool)
    modifies registry
    ensures accepted == Accepted(op)
    ensures Book(registry.Contents(), registry.projections) == Step(Book(old(registry.Contents()), old(registry.projections)), op)
  {
    hide InForce, QuotaId, FirstFree;
    match op
    case Set(t, text, terms, now) =>
      var r := registry.SetQuota(t, text, terms, now);
      accepted := r.Ok?;
    case Append(t, period, terms, revoked, reason, now) =>
      var r, revision := registry.AppendQuotaRevision(t, period, terms, revoked, reason, now);
      accepted := r.Ok?;
      if Accepted(op) { FirstFreeIsUnique(old(registry.nodes), t, now, revision, NextFree(old(registry.nodes), t, now)); }
  }

  ghost function Run(ops: seq<Op>): Book {
    if ops == [] then Book(Graph(map[], {}), map[]) else Step(Run(ops[..|ops| - 1]), ops[|ops| - 1])
  }

  // --- unambiguous ids ---------------------------------------------------------------------------------------

  function TargetsOf(ops: seq<Op>): set<Target> { set i | 0 <= i < |ops| :: ops[i].target }

  lemma TargetsOfPrefix(ops: seq<Op>)
    requires ops != []
    ensures TargetsOf(ops[..|ops| - 1]) <= TargetsOf(ops) && ops[|ops| - 1].target in TargetsOf(ops)
  {
    var n := |ops| - 1;
    forall u | u in TargetsOf(ops[..n]) ensures u in TargetsOf(ops) {
      var i :| 0 <= i < n && ops[..n][i].target == u;
      assert ops[i].target == u;
    }
  }

  // No two of the quotas in use share an id.
  ghost predicate Unambiguous(targets: set<Target>) {
    forall t, u, m, n :: t in targets && u in targets && QuotaId(t, m) == QuotaId(u, n) ==> t == u && m == n
  }

  ghost predicate Clocked(ops: seq<Op>) { forall i, j :: 0 <= i < j < |ops| ==> ops[i].nowMs <= ops[j].nowMs }

  // --- who wrote a node -----------------------------------------------------------------------------------------

  function TargetOf(p: Policy): Target { Target(p.lane, p.subject, p.name) }

  ghost predicate Owned(targets: set<Target>, id: string, p: Policy) {
    TargetOf(p) in targets && (id == QuotaId(TargetOf(p), None) || id == QuotaId(TargetOf(p), Some(p.revision)))
  }

  ghost predicate AllOwned(targets: set<Target>, g: Graph) {
    && (forall id :: id in g.nodes ==> Owned(targets, id, g.nodes[id]) && Link(g.nodes[id].subject, id) in g.links)
    && (forall l :: l in g.links ==> l.target in g.nodes && l.source == g.nodes[l.target].subject)
  }

  lemma OwnedStep(targets: set<Target>, b: Book, op: Op)
    requires Unambiguous(targets) && AllOwned(targets, b.graph) && op.target in targets
    ensures AllOwned(targets, Step(b, op).graph)
  {
    hide InForce, QuotaId, NextFree;
    if Accepted(op) {
      var id := IdOf(b.graph.nodes, op);
      if id in b.graph.nodes { assert Owned(targets, id, b.graph.nodes[id]); }
    }
  }

  // With unambiguous ids the candidates of a list are simply the nodes of its lane and subject.
  lemma CandidatesAre(targets: set<Target>, g: Graph, lane: string, subject: string)
    requires AllOwned(targets, g)
    ensures Candidates(g, lane, subject) == set id | id in g.nodes && g.nodes[id].lane == lane && g.nodes[id].subject == subject
  {
    hide Owned;
    forall id | id in g.nodes && g.nodes[id].lane == lane && g.nodes[id].subject == subject ensures id in Candidates(g, lane, subject) {
      assert Link(subject, id) in g.links;
    }
  }

  // --- cache coherence ------------------------------------------------------------------------------------------

  ghost predicate Coherent(b: Book) {
    forall lane, subject :: (lane, subject) in b.lists ==> b.lists[(lane, subject)] == InForce(b.graph, lane, subject)
  }

  // A list depends on its own nodes only.
  lemma ListFrame(g: Graph, g': Graph, lane: string, subject: string)
    requires Candidates(g, lane, subject) == Candidates(g', lane, subject)
    requires forall id :: id in Candidates(g, lane, subject) ==> g.nodes[id] == g'.nodes[id]
    ensures InForce(g, lane, subject) == InForce(g', lane, subject)
  {
    var ids := Candidates(g, lane, subject);
    var latest := LatestTable(g.nodes, ids, lane, subject);
    assert IsLatestTable(g'.nodes, ids, lane, subject, latest);
    LatestTableIsUnique(g'.nodes, ids, lane, subject, latest, LatestTable(g'.nodes, ids, lane, subject));
    ListedFrame(g.nodes, g'.nodes, latest, SortNames(latest.Keys));
  }

  lemma {:induction false} ListedFrame(nodes: map<string, Policy>, nodes': map<string, Policy>, latest: map<string, string>, names: seq<string>)
    requires forall n :: n in names ==> n in latest && latest[n] in nodes && latest[n] in nodes' && nodes[latest[n]] == nodes'[latest[n]]
    ensures Listed(nodes, latest, names) == Listed(nodes', latest, names)
  {
    if names != [] { ListedFrame(nodes, nodes', latest, names[..|names| - 1]); }
  }

  // A change leaves the lists of other lanes and subjects alone.
  lemma OtherListKept(targets: set<Target>, b: Book, op: Op, lane: string, subject: string)
    requires Unambiguous(targets) && AllOwned(targets, b.graph) && op.target in targets && Accepted(op)
    requires (lane, subject) != (op.target.lane, op.target.subject)
    ensures InForce(Step(b, op).graph, lane, subject) == InForce(b.graph, lane, subject)
  {
    hide InForce, QuotaId, Candidates, NextFree;
    var g, g' := b.graph, Step(b, op).graph;
    OwnedStep(targets, b, op);
    CandidatesAre(targets, g, lane, subject);
    CandidatesAre(targets, g', lane, subject);
    var id := IdOf(g.nodes, op);
    if id in g.nodes { assert Owned(targets, id, g.nodes[id]); }
    assert id !in Candidates(g, lane, subject) && id !in Candidates(g', lane, subject);
    hide AllOwned;
    ListFrame(g, g', lane, subject);
  }

  lemma CoherentStep(targets: set<Target>, b: Book, op: Op)
    requires Unambiguous(targets) && AllOwned(targets, b.graph) && op.target in targets && Coherent(b)
    ensures Coherent(Step(b, op))
  {
    hide InForce, QuotaId, Candidates, NextFree, Unambiguous, AllOwned, IdOf, RevisionOf, PolicyOf, PutPolicy;
    if Accepted(op) {
      forall lane, subject | (lane, subject) in b.lists && (lane, subject) != (op.target.lane, op.target.subject)
        ensures Step(b, op).lists[(lane, subject)] == InForce(Step(b, op).graph, lane, subject)
      {
        OtherListKept(targets, b, op, lane, subject);
      }
    }
  }

  // Every cached list is the list the graph defines, after any mix of changes to any quotas.
  lemma {:induction false} ListsAreCoherent(ops: seq<Op>, targets: set<Target>)
    requires TargetsOf(ops) <= targets && Unambiguous(targets)
    ensures AllOwned(targets, Run(ops).graph) && Coherent(Run(ops))
  {
    if ops != [] {
      hide Step, Unambiguous, AllOwned, Coherent;
      var n := |ops| - 1;
      TargetsOfPrefix(ops);
      hide TargetsOf;
      ListsAreCoherent(ops[..n], targets);
      OwnedStep(targets, Run(ops[..n]), ops[n]);
      CoherentStep(targets, Run(ops[..n]), ops[n]);
    }
  }

  // So a reader gets the list the graph defines, whether it is cached or not.
  lemma ReadersAgree(ops: seq<Op>, targets: set<Target>, lane: string, subject: string)
    requires TargetsOf(ops) <= targets && Unambiguous(targets)
    ensures var b := Run(ops);
            (lane, subject) in b.lists ==> Usable(b.lists[(lane, subject)], lane) == InForce(b.graph, lane, subject)
  {
    ListsAreCoherent(ops, targets);
    hide InForce, Run, Usable;
    AgreedIsUsable(Run(ops).graph, lane, subject);
  }

  // --- the policy a quota's own changes decide ---------------------------------------------------------------------

  // The last `set_quota` and the last appended revision of one quota.
  datatype Own = Own(base: Option<Policy>, last: Option<Policy>)

  function OwnStep(o: Own, op: Op): Own {
    match op
    case Set(_, _, _, now) => o.(base := Some(PolicyOf(op, now)))
    case Append(_, _, _, _, _, now) =>
      var revision := if o.last.Some? && o.last.value.revision >= now then o.last.value.revision + 1 else now;
      o.(last := Some(PolicyOf(op, revision)))
  }

  function OwnAfter(ops: seq<Op>, t: Target): Own {
    if ops == [] then Own(None, None)
    else
      var before, op := OwnAfter(ops[..|ops| - 1], t), ops[|ops| - 1];
      if op.target == t && Accepted(op) then OwnStep(before, op) else before
  }

  // An appended revision wins unless a `set_quota` carries a later time.
  function Chosen(o: Own): Option<Policy> {
    if o.base.Some? && (o.last.None? || o.base.value.revision > o.last.value.revision) then o.base else o.last
  }

  ghost predicate TracksBase(nodes: map<string, Policy>, t: Target, o: Own, clock: nat) {
    && (QuotaId(t, None) in nodes <==> o.base.Some?)
    && (o.base.Some? ==> nodes[QuotaId(t, None)] == o.base.value && o.base.value.revision <= clock && TargetOf(o.base.value) == t)
  }

  // Appended revisions are numbered without going back, and from the clock on without a gap.
  ghost predicate TracksLast(nodes: map<string, Policy>, t: Target, o: Own, clock: nat) {
    && (forall m: nat :: QuotaId(t, Some(m)) in nodes ==>
          o.last.Some? && m <= o.last.value.revision && nodes[QuotaId(t, Some(m))].revision == m)
    && (o.last.Some? ==>
          && QuotaId(t, Some(o.last.value.revision)) in nodes && nodes[QuotaId(t, Some(o.last.value.revision))] == o.last.value
          && TargetOf(o.last.value) == t
          && forall k: nat :: clock <= k <= o.last.value.revision ==> QuotaId(t, Some(k)) in nodes)
  }

  ghost predicate Tracks(nodes: map<string, Policy>, t: Target, o: Own, clock: nat) {
    TracksBase(nodes, t, o, clock) && TracksLast(nodes, t, o, clock)
  }

  // The search lands right behind the last appended revision, or on the current time: a strictly greater
  // revision than every earlier one.
  lemma NextIsFresh(nodes: map<string, Policy>, t: Target, o: Own, clock: nat, now: nat)
    requires TracksLast(nodes, t, o, clock) && clock <= now
    ensures NextFree(nodes, t, now) == if o.last.Some? && o.last.value.revision >= now then o.last.value.revision + 1 else now
    ensures forall m: nat :: QuotaId(t, Some(m)) in nodes ==> m < NextFree(nodes, t, now)
  {
    hide QuotaId;
    var free := NextFree(nodes, t, now);
    hide NextFree;
    assert FirstFree(nodes, t, now, free);
    if o.last.Some? && o.last.value.revision >= now {
      var next := o.last.value.revision + 1;
      assert QuotaId(t, Some(next)) !in nodes;
      assert forall k: nat :: now <= k < next ==> QuotaId(t, Some(k)) in nodes;
    } else {
      assert free == now || QuotaId(t, Some(now)) in nodes;
    }
  }

  function OwnNext(o: Own, op: Op, t: Target): Own { if op.target == t && Accepted(op) then OwnStep(o, op) else o }

  lemma TracksBaseStep(targets: set<Target>, b: Book, op: Op, t: Target, o: Own, clock: nat)
    requires Unambiguous(targets) && op.target in targets && t in targets && clock <= op.nowMs
    requires TracksBase(b.graph.nodes, t, o, clock)
    ensures TracksBase(Step(b, op).graph.nodes, t, OwnNext(o, op, t), op.nowMs)
  {
    hide InForce, QuotaId, NextFree;
  }

  // A change that leaves a quota's revision nodes alone.
  lemma TracksLastFrame(nodes: map<string, Policy>, nodes': map<string, Policy>, t: Target, o: Own, o': Own, clock: nat, later: nat)
    requires TracksLast(nodes, t, o, clock) && clock <= later && o'.last == o.last
    requires forall m: nat :: (QuotaId(t, Some(m)) in nodes <==> QuotaId(t, Some(m)) in nodes')
    requires forall m: nat :: QuotaId(t, Some(m)) in nodes ==> nodes'[QuotaId(t, Some(m))] == nodes[QuotaId(t, Some(m))]
    ensures TracksLast(nodes', t, o', later)
  {
    hide QuotaId;
  }

  // An appended revision becomes the last one.
  lemma TracksLastAppend(nodes: map<string, Policy>, nodes': map<string, Policy>, op: Op, o: Own, clock: nat)
    requires op.Append? && TracksLast(nodes, op.target, o, clock) && clock <= op.nowMs
    requires Unambiguous({op.target})
    requires nodes' == nodes[IdOf(nodes, op) := PolicyOf(op, RevisionOf(nodes, op))]
    ensures TracksLast(nodes', op.target, OwnStep(o, op), op.nowMs)
  {
    var t := op.target;
    hide QuotaId, NextFree;
    NextIsFresh(nodes, t, o, clock, op.nowMs);
    var free := RevisionOf(nodes, op);
    assert FirstFree(nodes, t, op.nowMs, free);
    assert forall m: nat :: QuotaId(t, Some(m)) == IdOf(nodes, op) ==> m == free;
  }

  lemma TracksLastStep(targets: set<Target>, b: Book, op: Op, t: Target, o: Own, clock: nat)
    requires Unambiguous(targets) && op.target in targets && t in targets && clock <= op.nowMs
    requires TracksLast(b.graph.nodes, t, o, clock)
    ensures TracksLast(Step(b, op).graph.nodes, t, OwnNext(o, op, t), op.nowMs)
  {
    hide InForce, QuotaId, NextFree, TracksLast;
    var nodes, nodes' := b.graph.nodes, Step(b, op).graph.nodes;
    if Accepted(op) && op.target == t && op.Append? {
      assert Unambiguous({t});
      hide Unambiguous;
      TracksLastAppend(nodes, nodes', op, o, clock);
    } else {
      if Accepted(op) { assert forall m: nat :: QuotaId(t, Some(m)) != IdOf(nodes, op); }
      TracksLastFrame(nodes, nodes', t, o, OwnNext(o, op, t), clock, op.nowMs);
    }
  }

  ghost predicate AllNamed(targets: set<Target>) { forall t :: t in targets ==> t.name != "" }

  lemma {:induction false} AlwaysTracks(ops: seq<Op>, targets: set<Target>, t: Target)
    requires TargetsOf(ops) <= targets && Unambiguous(targets) && Clocked(ops) && t in targets
    ensures Tracks(Run(ops).graph.nodes, t, OwnAfter(ops, t), if ops == [] then 0 else ops[|ops| - 1].nowMs)
  {
    if ops != [] {
      hide Step, Unambiguous, TracksBase, TracksLast, OwnStep, Accepted;
      var n := |ops| - 1;
      TargetsOfPrefix(ops);
      hide TargetsOf;
      AlwaysTracks(ops[..n], targets, t);
      TracksBaseStep(targets, Run(ops[..n]), ops[n], t, OwnAfter(ops[..n], t), if n == 0 then 0 else ops[n - 1].nowMs);
      TracksLastStep(targets, Run(ops[..n]), ops[n], t, OwnAfter(ops[..n], t), if n == 0 then 0 else ops[n - 1].nowMs);
    }
  }

  lemma {:induction false} PrefixIsLess(a: string, b: string)
    requires b != ""
    ensures Less(a, a + b)
  {
    if a != "" {
      assert (a + b)[1..] == a[1..] + b;
      PrefixIsLess(a[1..], b);
    }
  }

  lemma BaseLosesTies(t: Target, m: nat)
    ensures Less(QuotaId(t, None), QuotaId(t, Some(m)))
  {
    PrefixIsLess(BaseId(t), ":rev:" + Decimal(m));
    assert BaseId(t) + (":rev:" + Decimal(m)) == QuotaId(t, Some(m));
  }

  ghost function ChosenId(t: Target, o: Own): string
    requires Chosen(o).Some?
  {
    if Chosen(o) == o.base && (o.last.None? || o.base.value.revision > o.last.value.revision) then QuotaId(t, None)
    else QuotaId(t, Some(o.last.value.revision))
  }

  // The node of the chosen policy beats every other node of the quota.
  lemma ChosenBeats(nodes: map<string, Policy>, t: Target, o: Own, clock: nat, revision: Option<nat>)
    requires Tracks(nodes, t, o, clock) && QuotaId(t, revision) in nodes
    ensures Chosen(o).Some? && ChosenId(t, o) in nodes && nodes[ChosenId(t, o)] == Chosen(o).value
    ensures QuotaId(t, revision) != ChosenId(t, o) ==> Beats(nodes, ChosenId(t, o), QuotaId(t, revision))
  {
    hide QuotaId, Less;
    if o.last.Some? { BaseLosesTies(t, o.last.value.revision); }
  }

  lemma ChosenIsLatest(targets: set<Target>, g: Graph, t: Target, o: Own, clock: nat, id: string)
    requires AllOwned(targets, g) && AllNamed(targets) && t in targets && Tracks(g.nodes, t, o, clock)
    requires id in g.nodes && TargetOf(g.nodes[id]) == t
    ensures Latest(g.nodes, Candidates(g, t.lane, t.subject), t.lane, t.subject, id) <==> Chosen(o).Some? && id == ChosenId(t, o)
  {
    CandidatesAre(targets, g, t.lane, t.subject);
    hide QuotaId, Less, Candidates, BeforeRev, Beats, Chosen, ChosenId;
    var ids := Candidates(g, t.lane, t.subject);
    forall c | c in ids ensures NameOf(c, g.nodes[c], t.lane, t.subject) == g.nodes[c].name {
      assert Owned(targets, c, g.nodes[c]);
    }
    hide NameOf;
    forall c | c in ids && g.nodes[c].name == t.name
      ensures Chosen(o).Some? && ChosenId(t, o) in g.nodes && g.nodes[ChosenId(t, o)] == Chosen(o).value
      ensures c != ChosenId(t, o) ==> Beats(g.nodes, ChosenId(t, o), c)
    {
      assert Owned(targets, c, g.nodes[c]);
      ChosenBeats(g.nodes, t, o, clock, if c == QuotaId(t, None) then None else Some(g.nodes[c].revision));
    }
    assert id in ids && TargetOf(Chosen(o).value) == t by { ChosenIsOwn(g.nodes, t, o, clock); }
    assert Latest(g.nodes, ids, t.lane, t.subject, ChosenId(t, o));
    if Latest(g.nodes, ids, t.lane, t.subject, id) {
      LatestIsUnique(g.nodes, ids, t.lane, t.subject, id, ChosenId(t, o));
    }
  }

  lemma ChosenIsOwn(nodes: map<string, Policy>, t: Target, o: Own, clock: nat)
    requires Tracks(nodes, t, o, clock) && Chosen(o).Some?
    ensures TargetOf(Chosen(o).value) == t
  {
    hide QuotaId;
  }

  // Over every run of changes to any quotas: the one policy in force under a quota's name is the quota's last
  // appended revision, or a later `set_quota`; it is absent exactly when that one is a revocation.
  lemma InForceIsChosen(ops: seq<Op>, targets: set<Target>, t: Target, p: Policy)
    requires TargetsOf(ops) <= targets && Unambiguous(targets) && Clocked(ops) && AllNamed(targets) && t in targets
    requires p.name == t.name
    ensures p in InForce(Run(ops).graph, t.lane, t.subject) <==> Chosen(OwnAfter(ops, t)) == Some(p) && !p.revoked
  {
    var g, o := Run(ops).graph, OwnAfter(ops, t);
    var clock := if ops == [] then 0 else ops[|ops| - 1].nowMs;
    ListsAreCoherent(ops, targets);
    AlwaysTracks(ops, targets, t);
    InForceExactly(g, t.lane, t.subject, p);
    CandidatesAre(targets, g, t.lane, t.subject);
    hide Run, InForce, OwnAfter, QuotaId, NameOf, Candidates, Unambiguous;
    if id :| Latest(g.nodes, Candidates(g, t.lane, t.subject), t.lane, t.subject, id) && g.nodes[id] == p && !p.revoked {
      ChosenIsLatest(targets, g, t, o, clock, id);
      assert Owned(targets, id, p);
      ChosenBeats(g.nodes, t, o, clock, if id == QuotaId(t, None) then None else Some(p.revision));
    }
    if Chosen(o) == Some(p) && !p.revoked {
      ChosenIsOwn(g.nodes, t, o, clock);
      assert QuotaId(t, None) in g.nodes || QuotaId(t, Some(o.last.value.revision)) in g.nodes;
      ChosenBeats(g.nodes, t, o, clock, if o.base.Some? then None else Some(o.last.value.revision));
      ChosenIsLatest(targets, g, t, o, clock, ChosenId(t, o));
    }
  }

  // The last append wins: right after it, its policy is the one in force under the name, and after a revocation
  // there is none.
  lemma LastAppendWins(ops: seq<Op>, op: Op, targets: set<Target>, p: Policy)
    requires TargetsOf(ops + [op]) <= targets && Unambiguous(targets) && Clocked(ops + [op]) && AllNamed(targets)
    requires op.Append? && Accepted(op) && op.target in targets && p.name == op.target.name
    ensures p in InForce(Run(ops + [op]).graph, op.target.lane, op.target.subject) ==> !op.revoked && Says(p, op)
    ensures !op.revoked ==> exists q :: q in InForce(Run(ops + [op]).graph, op.target.lane, op.target.subject) && Says(q, op)
  {
    var t := op.target;
    var all := ops + [op];
    assert all[..|ops|] == ops;
    AlwaysTracks(all, targets, t);
    var o := OwnAfter(all, t);
    hide Run, InForce, QuotaId, Unambiguous;
    assert Chosen(o) == o.last;
    InForceIsChosen(all, targets, t, p);
    InForceIsChosen(all, targets, t, o.last.value);
  }

  // A `set_quota` at a later time than every appended revision takes effect as well; at an earlier or equal time
  // it does not.
  lemma LaterSetWins(ops: seq<Op>, op: Op, targets: set<Target>, p: Policy)
    requires TargetsOf(ops + [op]) <= targets && Unambiguous(targets) && Clocked(ops + [op]) && AllNamed(targets)
    requires op.Set? && Accepted(op) && op.target in targets && p.name == op.target.name
    ensures var last := OwnAfter(ops, op.target).last;
            var now := InForce(Run(ops + [op]).graph, op.target.lane, op.target.subject);
            if last.None? || last.value.revision < op.nowMs then
              (p in now ==> Says(p, op)) && exists q :: q in now && Says(q, op)
            else p in now <==> last == Some(p) && !p.revoked
  {
    var t := op.target;
    var all := ops + [op];
    assert all[..|ops|] == ops;
    AlwaysTracks(all, targets, t);
    var o := OwnAfter(all, t);
    hide Run, InForce, QuotaId, Unambiguous, ParsePeriod;
    InForceIsChosen(all, targets, t, p);
    InForceIsChosen(all, targets, t, o.base.value);
  }

  // --- when ids are unambiguous -------------------------------------------------------------------------------------

  predicate IsDigits(s: string) { forall i :: 0 <= i < |s| ==> '0' <= s[i] <= '9' }

  lemma {:induction false} DecimalIsDigits(n: nat)
    ensures IsDigits(Decimal(n))
  {
    if n >= 10 { DecimalIsDigits(n / 10); }
  }

  // Quotas whose names hold no colon and are not numbers never share an id, whatever the subjects look like.
  ghost predicate PlainNames(targets: set<Target>) {
    forall t :: t in targets ==> t.lane in LANES && ColonFree(t.name) && !IsDigits(t.name)
  }

  lemma BaseIdsDiffer(t: Target, u: Target)
    requires t.lane in LANES && u.lane in LANES && ColonFree(t.name) && ColonFree(u.name) && BaseId(t) == BaseId(u)
    ensures t == u
  {
    SplitAtLastColon("quota:" + t.lane + ":" + t.subject, t.name, "quota:" + u.lane + ":" + u.subject, u.name);
    assert "quota:" + t.lane + ":" + t.subject == "quota" + ":" + (t.lane + ":" + t.subject);
    assert "quota:" + u.lane + ":" + u.subject == "quota" + ":" + (u.lane + ":" + u.subject);
    SplitAtColon("quota", t.lane + ":" + t.subject, "quota", u.lane + ":" + u.subject);
    SplitAtColon(t.lane, t.subject, u.lane, u.subject);
  }

  lemma RevisionSplits(t: Target, m: nat)
    ensures QuotaId(t, Some(m)) == (BaseId(t) + ":" + "rev") + ":" + Decimal(m)
    ensures ColonFree(Decimal(m)) && IsDigits(Decimal(m)) && Decimal(m) != ""
  {
    DecimalDenotes(m);
    DecimalIsDigits(m);
    hide Decimal, BaseId;
  }

  lemma PlainNamesAreUnambiguous(targets: set<Target>)
    requires PlainNames(targets)
    ensures Unambiguous(targets)
  {
    forall t, u, m, n | t in targets && u in targets && QuotaId(t, m) == QuotaId(u, n) ensures t == u && m == n {
      if m.Some? { RevisionSplits(t, m.value); }
      if n.Some? { RevisionSplits(u, n.value); }
      hide Decimal;
      match (m, n)
      case (None, None) => BaseIdsDiffer(t, u);
      case (Some(a), Some(b)) =>
        SplitAtLastColon(BaseId(t) + ":" + "rev", Decimal(a), BaseId(u) + ":" + "rev", Decimal(b));
        DecimalInjective(a, b);
        SplitAtLastColon(BaseId(t), "rev", BaseId(u), "rev");
        BaseIdsDiffer(t, u);
      case (None, Some(b)) =>
        SplitAtLastColon("quota:" + t.lane + ":" + t.subject, t.name, BaseId(u) + ":" + "rev", Decimal(b));
      case (Some(a), None) =>
        SplitAtLastColon("quota:" + u.lane + ":" + u.subject, u.name, BaseId(t) + ":" + "rev", Decimal(a));
    }
  }

  // --- the empty name ---------------------------------------------------------------------------------------------------

  // A quota registered under the empty name competes under its node's id, so nothing ever supersedes it.
  lemma EmptyNameIsItsOwn(t: Target, revision: Option<nat>, p: Policy)
    requires t.name == "" && p.name == ""
    ensures NameOf(QuotaId(t, revision), p, t.lane, t.subject) == QuotaId(t, revision)
  {
    var prefix := "quota:" + t.lane + ":" + t.subject + ":";
    var id := QuotaId(t, revision);
    hide Decimal;
    assert BaseId(t) == prefix;
    assert id[..|prefix|] == prefix;
    if revision.Some? {
      assert id[|prefix|..] == ":rev:" + Decimal(revision.value);
      assert (":rev:" + Decimal(revision.value))[..5] == ":rev:";
    } else {
      assert id[|prefix|..] == "";
    }
  }

  // No quota of the same lane and subject bears a name that is one of t's node ids.
  ghost predicate NamesAvoid(targets: set<Target>, t: Target) {
    forall u, m :: u in targets && u.lane == t.lane && u.subject == t.subject && u != t ==> u.name != QuotaId(t, m)
  }

  // The name a node of the same lane and subject competes under.
  lemma CompetesUnder(targets: set<Target>, t: Target, id: string, p: Policy)
    requires t.name == "" && Owned(targets, id, p) && p.lane == t.lane && p.subject == t.subject
    ensures NameOf(id, p, t.lane, t.subject) == if TargetOf(p) == t then id else p.name
  {
    hide QuotaId;
    if TargetOf(p) == t {
      hide NameOf;
      EmptyNameIsItsOwn(t, if id == QuotaId(t, None) then None else Some(p.revision), p);
    } else {
      assert p.name != "";
    }
  }

  // So each of the quota's nodes is the latest of its name.
  lemma EachIsLatest(targets: set<Target>, g: Graph, t: Target, id: string)
    requires AllOwned(targets, g) && t.name == "" && NamesAvoid(targets, t) && id in g.nodes && TargetOf(g.nodes[id]) == t
    ensures Latest(g.nodes, Candidates(g, t.lane, t.subject), t.lane, t.subject, id)
  {
    hide QuotaId, NameOf, Beats;
    CandidatesAre(targets, g, t.lane, t.subject);
    hide Candidates;
    var ids := Candidates(g, t.lane, t.subject);
    assert Owned(targets, id, g.nodes[id]);
    CompetesUnder(targets, t, id, g.nodes[id]);
    forall c | c in ids && c != id ensures NameOf(c, g.nodes[c], t.lane, t.subject) != id {
      assert Owned(targets, c, g.nodes[c]);
      CompetesUnder(targets, t, c, g.nodes[c]);
    }
  }

  // For a quota with an empty name every unrevoked revision stays in force over every run of changes to any
  // quotas: neither a later revision nor a revocation takes it away.
  lemma EmptyNameKeepsAll(ops: seq<Op>, targets: set<Target>, t: Target, p: Policy)
    requires TargetsOf(ops) <= targets && Unambiguous(targets) && t in targets && t.name == "" && NamesAvoid(targets, t)
    requires TargetOf(p) == t
    ensures p in InForce(Run(ops).graph, t.lane, t.subject) <==>
              !p.revoked && exists id :: id in Run(ops).graph.nodes && Run(ops).graph.nodes[id] == p
  {
    hide Run, InForce, Unambiguous, AllOwned, NamesAvoid, Candidates, NameOf;
    ListsAreCoherent(ops, targets);
    var g := Run(ops).graph;
    InForceExactly(g, t.lane, t.subject, p);
    if id :| id in g.nodes && g.nodes[id] == p && !p.revoked { EachIsLatest(targets, g, t, id); }
    CandidatesAre(targets, g, t.lane, t.subject);
  }

  // A quota on its own never shares an id.
  lemma OneQuotaIsUnambiguous(t: Target)
    ensures Unambiguous({t}) && NamesAvoid({t}, t)
  {
    forall m: Option<nat>, n: Option<nat> | QuotaId(t, m) == QuotaId(t, n) ensures m == n {
      if m.Some? && n.Some? { RevisionIdsDiffer(t, m.value, n.value); }
      hide Decimal;
    }
  }
}
