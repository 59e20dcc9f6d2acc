/** Quota policies: every change writes a policy node, and readers use a cached list of the latest policy of each
    name. The cached list has to be the one the graph defines. */
module QuotaPolicy {
  import opened Prelude
  import opened Calendar
  import opened Text
  import opened TextOrder

  datatype Terms = Terms(period: Option<Period>, maxUsd: Option<nat>, maxTokens: Option<nat>, maxRequests: Option<nat>)

  // The payload of a policy node; `revision` is its revision_ms.
  datatype Policy = Policy(lane: string, subject: string, name: string, revision: nat, revoked: bool, terms: Terms, reason: string)

  // A HAS_QUOTA_POLICY edge.
  datatype Link = Link(source: string, target: string)

  datatype Graph = Graph(nodes: map<string, Policy>, links: set<Link>)

  datatype Target = Target(lane: string, subject: string, name: string)

  datatype RegistrationError = UnknownLane | UnsupportedPeriod | NoLimit

  const LANES := {"principal", "user", "key", "token"}

  // --- ids and names -----------------------------------------------------------------------------------------

  function BaseId(t: Target): string { "quota:" + t.lane + ":" + t.subject + ":" + t.name }

  // The node `set_quota` overwrites (None), or the node of one appended revision.
  function QuotaId(t: Target, revision: Option<nat>): string {
    match revision
    case None => BaseId(t)
    case Some(ms) => BaseId(t) + ":rev:" + Decimal(ms)
  }

  // The text before the first ":rev:", or None when there is none.
  function BeforeRev(s: string): Option<string> {
    if |s| < 5 then None
    else if s[..5] == ":rev:" then Some("")
    else
      match BeforeRev(s[1..])
      case None => None
      case Some(head) => Some([s[0]] + head)
  }

  // The name a node competes under: its own, or what its id says when that is empty.
  function NameOf(id: string, p: Policy, lane: string, subject: string): string {
    var prefix := "quota:" + lane + ":" + subject + ":";
    if p.name != "" then p.name
    else if |prefix| <= |id| && id[..|prefix|] == prefix then
      var tail := id[|prefix|..];
      match BeforeRev(tail)
      case Some(head) => if head != "" then head else id
      case None => if tail != "" then tail else id
    else id
  }

  // The first ":rev:" behind a name without a colon is the one that was put there.
  lemma {:induction false} BeforeRevIs(name: string, rest: string)
    requires ColonFree(name)
    ensures BeforeRev(name + ":rev:" + rest) == Some(name)
    ensures BeforeRev(name).None?
  {
    var s := name + ":rev:" + rest;
    if name == "" {
      assert s[..5] == ":rev:";
    } else {
      assert s[0] == name[0] && s[0] != ':';
      assert s[1..] == name[1..] + ":rev:" + rest;
      assert [name[0]] + name[1..] == name;
      if |name| >= 5 { assert name[..5][0] == name[0]; }
      assert s[..5][0] != ":rev:"[0];
      BeforeRevIs(name[1..], rest);
    }
  }

  // A node that carries no name competes under the name its id was built from.
  lemma NamelessCompetesUnderId(t: Target, revision: Option<nat>, p: Policy)
    requires p.name == "" && ColonFree(t.name) && t.name != ""
    ensures NameOf(QuotaId(t, revision), p, t.lane, t.subject) == t.name
  {
    var prefix := "quota:" + t.lane + ":" + t.subject + ":";
    var id := QuotaId(t, revision);
    hide Decimal;
    BeforeRevIs(t.name, if revision.Some? then Decimal(revision.value) else "");
    assert BaseId(t) == prefix + t.name;
    hide BeforeRev;
    assert id[..|prefix|] == prefix;
    if revision.Some? {
      assert id[|prefix|..] == t.name + ":rev:" + Decimal(revision.value);
    } else {
      assert id[|prefix|..] == t.name;
    }
  }

  // And under its id when that was not built for the lane and subject.
  lemma OtherIdsCompeteAsTheyAre(id: string, p: Policy, lane: string, subject: string)
    requires p.name == "" && !("quota:" + lane + ":" + subject + ":" <= id)
    ensures NameOf(id, p, lane, subject) == id
  {
    var prefix := "quota:" + lane + ":" + subject + ":";
    assert |prefix| <= |id| ==> id == id[..|prefix|] + id[|prefix|..];
  }

  // --- which policy wins -----------------------------------------------------------------------------------

  predicate Beats(nodes: map<string, Policy>, a: string, b: string)
    requires a in nodes && b in nodes
  {
    nodes[a].revision > nodes[b].revision || (nodes[a].revision == nodes[b].revision && Less(b, a))
  }

  function Candidates(g: Graph, lane: string, subject: string): set<string> {
    set l | l in g.links && l.source == subject && l.target in g.nodes && g.nodes[l.target].lane == lane :: l.target
  }

  // `id` is the latest of the nodes `ids` that share its name.
  ghost predicate Latest(nodes: map<string, Policy>, ids: set<string>, lane: string, subject: string, id: string)
    requires ids <= nodes.Keys
  {
    id in ids && forall c :: c in ids && c != id && NameOf(c, nodes[c], lane, subject) == NameOf(id, nodes[id], lane, subject) ==>
      Beats(nodes, id, c)
  }

  function NamesOf(nodes: map<string, Policy>, ids: set<string>, lane: string, subject: string): set<string>
    requires ids <= nodes.Keys
  {
    set id | id in ids :: NameOf(id, nodes[id], lane, subject)
  }

  // One latest node for every name, and nothing else.
  ghost predicate IsLatestTable(nodes: map<string, Policy>, ids: set<string>, lane: string, subject: string, latest: map<string, string>)
    requires ids <= nodes.Keys
  {
    && latest.Keys == NamesOf(nodes, ids, lane, subject)
    && forall name :: name in latest ==>
         latest[name] in ids && NameOf(latest[name], nodes[latest[name]], lane, subject) == name
         && Latest(nodes, ids, lane, subject, latest[name])
  }

  lemma LatestIsUnique(nodes: map<string, Policy>, ids: set<string>, lane: string, subject: string, a: string, b: string)
    requires ids <= nodes.Keys && Latest(nodes, ids, lane, subject, a) && Latest(nodes, ids, lane, subject, b)
    requires NameOf(a, nodes[a], lane, subject) == NameOf(b, nodes[b], lane, subject)
    ensures a == b
  {
    hide NameOf;
    if a != b && Less(a, b) && Less(b, a) {
      LessTransitive(a, b, a);
      LessIrreflexive(a);
    }
  }

  lemma LatestTableIsUnique(nodes: map<string, Policy>, ids: set<string>, lane: string, subject: string,
                            t: map<string, string>, u: map<string, string>)
    requires ids <= nodes.Keys
    requires IsLatestTable(nodes, ids, lane, subject, t) && IsLatestTable(nodes, ids, lane, subject, u)
    ensures t == u
  {
    hide NameOf, Latest;
    forall name | name in t ensures t[name] == u[name] {
      LatestIsUnique(nodes, ids, lane, subject, t[name], u[name]);
    }
  }

  // One more node: it replaces the entry of its name exactly if it beats it.
  function Improve(nodes: map<string, Policy>, lane: string, subject: string, latest: map<string, string>, id: string): map<string, string>
    requires id in nodes && latest.Values <= nodes.Keys
  {
    var name := NameOf(id, nodes[id], lane, subject);
    if name !in latest || Beats(nodes, id, latest[name]) then latest[name := id] else latest
  }

  // Beating is a strict total order on the nodes.
  lemma BeatsIsTotal(nodes: map<string, Policy>, a: string, b: string)
    requires a in nodes && b in nodes && a != b
    ensures Beats(nodes, a, b) || Beats(nodes, b, a)
  {
    LessTotal(a, b);
  }

  lemma BeatsIsTransitive(nodes: map<string, Policy>, a: string, b: string, c: string)
    requires a in nodes && b in nodes && c in nodes && Beats(nodes, a, b) && Beats(nodes, b, c)
    ensures Beats(nodes, a, c)
  {
    if nodes[a].revision == nodes[b].revision == nodes[c].revision { LessTransitive(c, b, a); }
  }

  // The winner of a name among the nodes and one more.
  lemma WinnerIsLatest(nodes: map<string, Policy>, ids: set<string>, lane: string, subject: string, old_: string, id: string)
    requires ids <= nodes.Keys && id in nodes && Latest(nodes, ids, lane, subject, old_)
    requires NameOf(id, nodes[id], lane, subject) == NameOf(old_, nodes[old_], lane, subject)
    ensures Latest(nodes, ids + {id}, lane, subject, if Beats(nodes, id, old_) then id else old_)
  {
    hide NameOf, Beats;
    if Beats(nodes, id, old_) {
      forall c | c in ids && c != id && NameOf(c, nodes[c], lane, subject) == NameOf(id, nodes[id], lane, subject)
        ensures Beats(nodes, id, c)
      {
        if c != old_ { BeatsIsTransitive(nodes, id, old_, c); }
      }
    } else if id != old_ {
      BeatsIsTotal(nodes, id, old_);
    }
  }

  lemma ImproveIsLatest(nodes: map<string, Policy>, ids: set<string>, lane: string, subject: string, latest: map<string, string>, id: string)
    requires ids <= nodes.Keys && id in nodes && IsLatestTable(nodes, ids, lane, subject, latest) && latest.Values <= nodes.Keys
    ensures IsLatestTable(nodes, ids + {id}, lane, subject, Improve(nodes, lane, subject, latest, id))
  {
    hide NameOf, Beats;
    var name := NameOf(id, nodes[id], lane, subject);
    var next := Improve(nodes, lane, subject, latest, id);
    assert NamesOf(nodes, ids + {id}, lane, subject) == NamesOf(nodes, ids, lane, subject) + {name};
    forall n | n in next
      ensures next[n] in ids + {id} && NameOf(next[n], nodes[next[n]], lane, subject) == n
      ensures Latest(nodes, ids + {id}, lane, subject, next[n])
    {
      if n == name && name in latest { WinnerIsLatest(nodes, ids, lane, subject, latest[name], id); }
    }
  }

  // The table of latest nodes the graph defines.
  ghost function LatestTable(nodes: map<string, Policy>, ids: set<string>, lane: string, subject: string): (t: map<string, string>)
    requires ids <= nodes.Keys
    ensures IsLatestTable(nodes, ids, lane, subject, t) && t.Values <= nodes.Keys
    decreases |ids|
  {
    if ids == {} then map[]
    else
      var id :| id in ids;
      var rest := LatestTable(nodes, ids - {id}, lane, subject);
      ImproveIsLatest(nodes, ids - {id}, lane, subject, rest, id);
      assert ids - {id} + {id} == ids;
      Improve(nodes, lane, subject, rest, id)
  }

  // --- the list ----------------------------------------------------------------------------------------------

  predicate IsLeast(name: string, names: set<string>) { name in names && forall n :: n in names && n != name ==> Less(name, n) }

  lemma {:induction false} LeastExists(names: set<string>)
    requires names != {}
    ensures exists name :: IsLeast(name, names)
    decreases |names|
  {
    var n :| n in names;
    if names == {n} {
      assert IsLeast(n, names);
    } else {
      assert names - {n} != {};
      LeastExists(names - {n});
      var m :| IsLeast(m, names - {n});
      LessTotal(n, m);
      if Less(n, m) {
        forall k | k in names && k != n ensures Less(n, k) { if k != m { LessTransitive(n, m, k); } }
        assert IsLeast(n, names);
      } else {
        assert IsLeast(m, names);
      }
    }
  }

  lemma LeastIsUnique(names: set<string>, a: string, b: string)
    requires IsLeast(a, names) && IsLeast(b, names)
    ensures a == b
  {
    if a != b {
      LessTransitive(a, b, a);
      LessIrreflexive(a);
    }
  }

  // `sorted(...)` on distinct names.
  function SortNames(names: set<string>): (r: seq<string>)
    ensures forall n :: n in r <==> n in names
    ensures forall i, j :: 0 <= i < j < |r| ==> Less(r[i], r[j])
    decreases |names|
  {
    if names == {} then []
    else
      LeastExists(names);
      assert forall a, b :: IsLeast(a, names) && IsLeast(b, names) ==> a == b by {
        forall a, b | IsLeast(a, names) && IsLeast(b, names) ensures a == b { LeastIsUnique(names, a, b); }
      }
      var least :| IsLeast(least, names);
      [least] + SortNames(names - {least})
  }

  // The policies of the named nodes, in order, without the revoked ones.
  function Listed(nodes: map<string, Policy>, latest: map<string, string>, names: seq<string>): seq<Policy>
    requires forall n :: n in names ==> n in latest && latest[n] in nodes
  {
    if names == [] then []
    else
      var p := nodes[latest[names[|names| - 1]]];
      Listed(nodes, latest, names[..|names| - 1]) + if p.revoked then [] else [p]
  }

  // The policies in force for a lane and subject: per name the latest node, the revoked ones dropped, by name.
  ghost function InForce(g: Graph, lane: string, subject: string): seq<Policy> {
    var latest := LatestTable(g.nodes, Candidates(g, lane, subject), lane, subject);
    Listed(g.nodes, latest, SortNames(latest.Keys))
  }

  lemma {:induction false} ListedIs(nodes: map<string, Policy>, latest: map<string, string>, names: seq<string>, p: Policy)
    requires forall n :: n in names ==> n in latest && latest[n] in nodes
    ensures p in Listed(nodes, latest, names) <==> exists n :: n in names && nodes[latest[n]] == p && !p.revoked
  {
    if names != [] {
      var last := names[|names| - 1];
      ListedIs(nodes, latest, names[..|names| - 1], p);
      assert forall n :: n in names <==> n in names[..|names| - 1] || n == last by {
        assert names == names[..|names| - 1] + [last];
      }
    }
  }

  // A policy is in force exactly if it stands, unrevoked, on the latest node of its name.
  lemma InForceExactly(g: Graph, lane: string, subject: string, p: Policy)
    ensures p in InForce(g, lane, subject) <==>
              exists id :: Latest(g.nodes, Candidates(g, lane, subject), lane, subject, id) && g.nodes[id] == p && !p.revoked
  {
    var ids := Candidates(g, lane, subject);
    var latest := LatestTable(g.nodes, ids, lane, subject);
    ListedIs(g.nodes, latest, SortNames(latest.Keys), p);
    hide NameOf, Listed, SortNames;
    if id :| Latest(g.nodes, ids, lane, subject, id) && g.nodes[id] == p && !p.revoked {
      var name := NameOf(id, p, lane, subject);
      LatestIsUnique(g.nodes, ids, lane, subject, id, latest[name]);
    }
  }

  // --- fresh revision ids ------------------------------------------------------------------------------------

  lemma DecimalInjective(a: nat, b: nat)
    requires Decimal(a) == Decimal(b)
    ensures a == b
  {
    DecimalDenotes(a);
    DecimalDenotes(b);
  }

  lemma RevisionIdsDiffer(t: Target, a: nat, b: nat)
    requires QuotaId(t, Some(a)) == QuotaId(t, Some(b))
    ensures a == b
  {
    hide Decimal;
    var head := BaseId(t) + ":rev:";
    assert QuotaId(t, Some(a))[|head|..] == Decimal(a) && QuotaId(t, Some(b))[|head|..] == Decimal(b);
    DecimalInjective(a, b);
  }

  // The revision ids of a quota that are taken from `ms` on.
  ghost function Taken(nodes: map<string, Policy>, t: Target, ms: nat): set<string> {
    set id | id in nodes && exists m: nat :: m >= ms && id == QuotaId(t, Some(m))
  }

  lemma TakenShrinks(nodes: map<string, Policy>, t: Target, ms: nat)
    requires QuotaId(t, Some(ms)) in nodes
    ensures |Taken(nodes, t, ms + 1)| < |Taken(nodes, t, ms)|
  {
    hide QuotaId;
    var id := QuotaId(t, Some(ms));
    if id in Taken(nodes, t, ms + 1) {
      var m: nat :| m >= ms + 1 && id == QuotaId(t, Some(m));
      RevisionIdsDiffer(t, ms, m);
      assert false;
    }
    forall other | other in Taken(nodes, t, ms + 1) ensures other in Taken(nodes, t, ms) - {id} {
      var m: nat :| m >= ms + 1 && other == QuotaId(t, Some(m));
    }
    SubsetSize(Taken(nodes, t, ms + 1), Taken(nodes, t, ms) - {id});
  }

  // The first free revision number at or after `ms`.
  ghost predicate FirstFree(nodes: map<string, Policy>, t: Target, ms: nat, free: nat) {
    && ms <= free && QuotaId(t, Some(free)) !in nodes
    && forall k: nat :: ms <= k < free ==> QuotaId(t, Some(k)) in nodes
  }

  // --- one change ----------------------------------------------------------------------------------------------

  function PutPolicy(g: Graph, t: Target, id: string, p: Policy): Graph {
    Graph(g.nodes[id := p], g.links + {Link(t.subject, id)})
  }

  const NO_TERMS := Terms(None, None, None, None)

  predicate Limited(terms: Terms) { terms.maxUsd.Some? || terms.maxTokens.Some? || terms.maxRequests.Some? }

  // A period given as text that names none.
  predicate BadPeriod(period: Option<string>) { period.Some? && ParsePeriod(period.value).None? }

  // The terms of a change: its limits, and its period parsed.
  function Parsed(period: Option<string>, terms: Terms): Terms {
    terms.(period := if period.Some? then ParsePeriod(period.value) else None)
  }

  function NewPolicy(t: Target, revision: nat, revoked: bool, terms: Terms, reason: string): Policy {
    Policy(t.lane, t.subject, t.name, revision, revoked, terms, reason)
  }

  lemma NothingYet(nodes: map<string, Policy>, lane: string, subject: string)
    ensures IsLatestTable(nodes, {}, lane, subject, map[])
  {
  }

  class Registry {
    var nodes: map<string, Policy>
    var links: set<Link>
    var projections: map<(string, string), seq<Policy>>

    ghost function Contents(): Graph
      reads this
    {
      Graph(nodes, links)
    }

    constructor ()
      ensures nodes == map[] && links == {} && projections == map[]
    {
      nodes, links, projections := map[], {}, map[];
    }

    // Keep the node in the table if its name is new or it beats the entry of its name.
    method Consider(lane: string, subject: string, latest: map<string, string>, id: string) returns (next: map<string, string>)
      requires id in nodes && latest.Values <= nodes.Keys
      ensures next == Improve(nodes, lane, subject, latest, id) && next.Values <= nodes.Keys
    {
      hide NameOf, Less;
      next := latest;
      var p := nodes[id];
      var name := NameOf(id, p, lane, subject);
      if name !in latest || p.revision > nodes[latest[name]].revision
        || (p.revision == nodes[latest[name]].revision && Less(latest[name], id)) {
        next := latest[name := id];
      }
    }

    // The loop over the edges, whatever order they come in.
    method LatestByName(lane: string, subject: string) returns (latest: map<string, string>)
      ensures latest == LatestTable(nodes, Candidates(Contents(), lane, subject), lane, subject)
    {
      hide NameOf, Less, IsLatestTable, Improve;
      NothingYet(nodes, lane, subject);
      latest := map[];
      ghost var seen: set<string> := {};
      var todo := links;
      while todo != {}
        invariant todo <= links
        invariant seen == Candidates(Graph(nodes, links - todo), lane, subject)
        invariant seen <= nodes.Keys && latest.Values <= nodes.Keys && IsLatestTable(nodes, seen, lane, subject, latest)
        decreases |todo|
      {
        var e :| e in todo;
        todo := todo - {e};
        if e.source != subject || e.target !in nodes || nodes[e.target].lane != lane { continue; }
        ImproveIsLatest(nodes, seen, lane, subject, latest, e.target);
        latest := Consider(lane, subject, latest, e.target);
        seen := seen + {e.target};
      }
      assert links - todo == links;
      LatestTableIsUnique(nodes, seen, lane, subject, latest, LatestTable(nodes, seen, lane, subject));
    }

    // The list both the rebuild and the reader's fallback compute.
    method Compute(lane: string, subject: string) returns (items: seq<Policy>)
      ensures items == InForce(Contents(), lane, subject)
    {
      hide Candidates, IsLatestTable, Latest, SortNames;
      var latest := LatestByName(lane, subject);
      var names := SortNames(latest.Keys);
      items := [];
      for i := 0 to |names|
        invariant forall n :: n in names ==> n in latest && latest[n] in nodes
        invariant items == Listed(nodes, latest, names[..i])
      {
        assert names[..i + 1][..i] == names[..i];
        if !nodes[latest[names[i]]].revoked { items := items + [nodes[latest[names[i]]]]; }
      }
      assert names[..|names|] == names;
    }

    method RebuildProjection(lane: string, subject: string) returns (items: seq<Policy>)
      modifies this`projections
      ensures items == InForce(Contents(), lane, subject)
      ensures projections == old(projections)[(lane, subject) := items]
    {
      items := Compute(lane, subject);
      projections := projections[(lane, subject) := items];
    }

    method SetQuota(t: Target, period: string, terms: Terms, nowMs: nat) returns (r: Result<string, RegistrationError>)
      modifies this
      ensures t.lane !in LANES ==> r == Err(UnknownLane)
      ensures t.lane in LANES && BadPeriod(Some(period)) ==> r == Err(UnsupportedPeriod)
      ensures t.lane in LANES && !BadPeriod(Some(period)) && !Limited(terms) ==> r == Err(NoLimit)
      ensures r.Err? ==> Contents() == old(Contents()) && projections == old(projections)
      ensures t.lane in LANES && !BadPeriod(Some(period)) && Limited(terms) ==>
                && r == Ok(QuotaId(t, None))
                && Contents() == PutPolicy(old(Contents()), t, QuotaId(t, None), NewPolicy(t, nowMs, false, Parsed(Some(period), terms), ""))
                && projections == old(projections)[(t.lane, t.subject) := InForce(Contents(), t.lane, t.subject)]
    {
      hide InForce, ParsePeriod;
      if t.lane !in LANES { return Err(UnknownLane); }
      var normalized := ParsePeriod(period);
      if normalized.None? { return Err(UnsupportedPeriod); }
      if terms.maxUsd.None? && terms.maxTokens.None? && terms.maxRequests.None? { return Err(NoLimit); }
      var id := QuotaId(t, None);
      nodes := nodes[id := Policy(t.lane, t.subject, t.name, nowMs, false, terms.(period := normalized), "")];
      links := links + {Link(t.subject, id)};
      var _ := RebuildProjection(t.lane, t.subject);
      return Ok(id);
    }

    // The id search ends, and never lands on a node that exists.
    method AppendQuotaRevision(t: Target, period: Option<string>, terms: Terms, revoked: bool, reason: string, nowMs: nat)
      returns (r: Result<string, RegistrationError>, ghost revision: nat)
      modifies this
      ensures t.lane !in LANES ==> r == Err(UnknownLane)
      ensures t.lane in LANES && BadPeriod(period) ==> r == Err(UnsupportedPeriod)
      ensures t.lane in LANES && !BadPeriod(period) && !revoked && !Limited(terms) ==> r == Err(NoLimit)
      ensures r.Err? ==> Contents() == old(Contents()) && projections == old(projections)
      ensures t.lane in LANES && !BadPeriod(period) && (revoked || Limited(terms)) ==>
                && FirstFree(old(nodes), t, nowMs, revision) && r == Ok(QuotaId(t, Some(revision)))
                && Contents() == PutPolicy(old(Contents()), t, r.value, NewPolicy(t, revision, revoked, Parsed(period, terms), reason))
                && projections == old(projections)[(t.lane, t.subject) := InForce(Contents(), t.lane, t.subject)]
    {
      hide InForce, QuotaId, ParsePeriod;
      revision := nowMs;
      if t.lane !in LANES { return Err(UnknownLane), 0; }
      var normalized: Option<Period> := None;
      if period.Some? {
        normalized := ParsePeriod(period.value);
        if normalized.None? { return Err(UnsupportedPeriod), 0; }
      }
      if !revoked && terms.maxUsd.None? && terms.maxTokens.None? && terms.maxRequests.None? { return Err(NoLimit), 0; }
      var ms := nowMs;
      var id := QuotaId(t, Some(ms));
      while id in nodes
        modifies {}
        invariant nowMs <= ms && id == QuotaId(t, Some(ms))
        invariant forall k: nat :: nowMs <= k < ms ==> QuotaId(t, Some(k)) in nodes
        decreases |Taken(nodes, t, ms)|
      {
        TakenShrinks(nodes, t, ms);
        ms := ms + 1;
        id := QuotaId(t, Some(ms));
      }
      revision := ms;
      assert FirstFree(nodes, t, nowMs, revision);
      nodes := nodes[id := Policy(t.lane, t.subject, t.name, ms, revoked, terms.(period := normalized), reason)];
      links := links + {Link(t.subject, id)};
      var _ := RebuildProjection(t.lane, t.subject);
      r := Ok(id);
    }

    method RevokeQuota(t: Target, reason: string, nowMs: nat) returns (r: Result<string, RegistrationError>, ghost revision: nat)
      modifies this
      ensures t.lane !in LANES ==> r == Err(UnknownLane) && Contents() == old(Contents()) && projections == old(projections)
      ensures t.lane in LANES ==>
                && FirstFree(old(nodes), t, nowMs, revision) && r == Ok(QuotaId(t, Some(revision)))
                && Contents() == PutPolicy(old(Contents()), t, r.value, NewPolicy(t, revision, true, NO_TERMS, reason))
                && projections == old(projections)[(t.lane, t.subject) := InForce(Contents(), t.lane, t.subject)]
    {
      hide InForce, QuotaId;
      r, revision := AppendQuotaRevision(t, None, NO_TERMS, true, reason, nowMs);
    }

    // What an admission check reads: the usable part of the cached list when there is one, the computed list
    // otherwise.
    method QuotaPolicies(lane: string, subject: string) returns (policies: seq<Policy>)
      modifies this`projections
      ensures var k := (lane, subject);
              if k in old(projections) then policies == Usable(old(projections)[k], lane) && projections == old(projections)
              else policies == InForce(Contents(), lane, subject) && projections == old(projections)[k := policies]
      ensures (lane, subject) in old(projections) && old(projections)[(lane, subject)] == InForce(Contents(), lane, subject) ==>
                policies == InForce(Contents(), lane, subject)
    {
      hide InForce;
      if (lane, subject) in projections {
        var items := projections[(lane, subject)];
        policies := [];
        for i := 0 to |items|
          modifies {}
          invariant policies == Usable(items[..i], lane)
        {
          assert items[..i + 1][..i] == items[..i];
          if items[i].lane == lane && !items[i].revoked { policies := policies + [items[i]]; }
        }
        assert items[..|items|] == items;
        AgreedIsUsable(Contents(), lane, subject);
      } else {
        policies := RebuildProjection(lane, subject);
      }
    }
  }

  // The policies a reader takes from a cached list: those of its lane that are not revoked.
  function Usable(items: seq<Policy>, lane: string): seq<Policy> {
    if items == [] then []
    else
      var p := items[|items| - 1];
      Usable(items[..|items| - 1], lane) + if p.lane == lane && !p.revoked then [p] else []
  }

  lemma {:induction false} AllUsable(items: seq<Policy>, lane: string)
    requires forall p :: p in items ==> p.lane == lane && !p.revoked
    ensures Usable(items, lane) == items
  {
    if items != [] {
      AllUsable(items[..|items| - 1], lane);
      assert items[|items| - 1] in items && items == items[..|items| - 1] + [items[|items| - 1]];
    }
  }

  // What a reader takes from a cached list: its unrevoked policies of the lane, each as often as it stands there.
  lemma {:induction false} UsableExactly(items: seq<Policy>, lane: string, p: Policy)
    ensures multiset(Usable(items, lane))[p] == if p.lane == lane && !p.revoked then multiset(items)[p] else 0
  {
    if items != [] {
      var before, last := items[..|items| - 1], items[|items| - 1];
      UsableExactly(before, lane, p);
      assert items == before + [last];
      assert multiset(items) == multiset(before) + multiset{last};
      var usable := Usable(before, lane);
      assert multiset(usable + [last]) == multiset(usable) + multiset{last};
      assert Usable(items, lane) == if last.lane == lane && !last.revoked then usable + [last] else usable;
      hide Usable;
    }
  }

  // A list that agrees with the graph is read unchanged.
  lemma AgreedIsUsable(g: Graph, lane: string, subject: string)
    ensures Usable(InForce(g, lane, subject), lane) == InForce(g, lane, subject)
  {
    forall p | p in InForce(g, lane, subject) ensures p.lane == lane && !p.revoked { InForceExactly(g, lane, subject, p); }
    hide InForce;
    AllUsable(InForce(g, lane, subject), lane);
  }
}
