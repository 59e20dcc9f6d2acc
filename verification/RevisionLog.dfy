/** The revision log of the Kogwistar store. A write that changes an entity appends a revision, tombstones the one
    before it with a redirect, and moves the current projection; a write that changes nothing appends nothing. */
module RevisionLog {
  import opened Prelude
  import opened Text

  datatype Entity = NodeOf(id: string) | EdgeOf(id: string)

  datatype Content =
    | NodeContent(kind: string, payload: string)
    | EdgeContent(kind: string, source: string, target: string, payload: string)

  datatype Record =
    | Revision(id: string, entity: Entity, content: Content, hash: string, supersedes: Option<string>, number: nat)
    | Tombstone(id: string, entity: Entity, retired: string, redirectsTo: string)

  datatype Current = Current(content: Content, hash: string, revision: string)

  // `content` is the in-memory nodes and edges, `current` the named projections they are reloaded from.
  datatype Log = Log(content: map<Entity, Content>, current: map<Entity, Current>, records: seq<Record>, counter: nat)

  const EMPTY := Log(map[], map[], [], 0)

  const SENTINEL := NodeOf("system:graph_key_sentinel")

  predicate Fits(e: Entity, c: Content) { e.NodeOf? <==> c.NodeContent? }

  // --- record ids ------------------------------------------------------------------------------------------

  function Safe(id: string): (r: string)
    ensures ColonFree(r) && '/' !in r && |r| == |id|
    ensures forall i :: 0 <= i < |id| && r[i] != id[i] ==> r[i] == '_' && (id[i] == ':' || id[i] == '/')
  {
    seq(|id|, i requires 0 <= i < |id| => if id[i] == ':' || id[i] == '/' then '_' else id[i])
  }

  function AfterColon(hash: string): string {
    if hash == "" then "" else if hash[0] == ':' then hash[1..] else AfterColon(hash[1..])
  }

  // The first sixteen characters behind the algorithm's name.
  function Digest(hash: string): string {
    var text := if ':' in hash then AfterColon(hash) else hash;
    if |text| <= 16 then text else text[..16]
  }

  function RevisionId(prefix: string, entity: string, number: nat, hash: string): string {
    "revision" + ":" + (prefix + ":" + (Safe(entity) + ":" + (Pad8(number) + ":" + Digest(hash))))
  }

  // Sixteen characters of what follows the first colon; a hash without a colon is all digest.
  lemma DigestIs(algorithm: string, text: string)
    requires ColonFree(algorithm)
    ensures Digest(algorithm + ":" + text) == if |text| > 16 then text[..16] else text
    ensures ColonFree(text) ==> Digest(text) == if |text| > 16 then text[..16] else text
  {
    AfterColonIs(algorithm, text);
    assert (algorithm + ":" + text)[|algorithm|] == ':';
  }

  lemma {:induction false} AfterColonIs(head: string, tail: string)
    requires ColonFree(head)
    ensures AfterColon(head + ":" + tail) == tail
  {
    var s := head + ":" + tail;
    if head == "" {
      assert s[1..] == tail;
    } else {
      assert s[1..] == head[1..] + ":" + tail;
      AfterColonIs(head[1..], tail);
    }
  }

  function Prefix(e: Entity): string { if e.NodeOf? then "node" else "edge" }

  function TombstonePrefix(e: Entity): string { if e.NodeOf? then "node_tombstone" else "edge_tombstone" }

  // The number inside an id tells records apart, whatever the entity ids and hashes are.
  lemma RevisionIdInjective(prefix: string, entity: string, n: nat, hash: string,
                            prefix': string, entity': string, n': nat, hash': string)
    requires ColonFree(prefix) && ColonFree(prefix')
    requires RevisionId(prefix, entity, n, hash) == RevisionId(prefix', entity', n', hash')
    ensures n == n'
  {
    hide Digest, Safe, Pad8;
    PaddedDenotes(n);
    PaddedDenotes(n');
    var tail, tail' := Pad8(n) + ":" + Digest(hash), Pad8(n') + ":" + Digest(hash');
    var mid, mid' := Safe(entity) + ":" + tail, Safe(entity') + ":" + tail';
    SplitAtColon("revision", prefix + ":" + mid, "revision", prefix' + ":" + mid');
    SplitAtColon(prefix, mid, prefix', mid');
    SplitAtColon(Safe(entity), tail, Safe(entity'), tail');
    SplitAtColon(Pad8(n), Digest(hash), Pad8(n'), Digest(hash'));
  }

  function IdRest(entity: string, number: nat, hash: string): string { Safe(entity) + ":" + Pad8(number) + ":" + Digest(hash) }

  lemma IdIs(prefix: string, entity: string, n: nat, h: string)
    ensures RevisionId(prefix, entity, n, h) == "revision:" + prefix + ":" + IdRest(entity, n, h)
  {
    hide Digest, Safe, Pad8;
  }

  // An id says what it is the id of: a revision or a tombstone, of a node or of an edge.
  lemma IdsTellKinds(e: Entity, n: nat, h: string)
    ensures RevisionId(Prefix(e), e.id, n, h) == (if e.NodeOf? then "revision:node:" else "revision:edge:") + IdRest(e.id, n, h)
    ensures RevisionId(TombstonePrefix(e), e.id, n, h)
            == (if e.NodeOf? then "revision:node_tombstone:" else "revision:edge_tombstone:") + IdRest(e.id, n, h)
  {
    IdIs(Prefix(e), e.id, n, h);
    IdIs(TombstonePrefix(e), e.id, n, h);
    hide RevisionId, IdRest;
    assert "revision:" + "node" + ":" == "revision:node:" && "revision:" + "edge" + ":" == "revision:edge:";
  }

  // --- one write ---------------------------------------------------------------------------------------------

  datatype Answer = Changed | Unchanged | Refused

  // Equal in everything but the payload, which is compared by hash.
  predicate SameHead(a: Content, b: Content) {
    match a
    case NodeContent(kind, _) => b.NodeContent? && b.kind == kind
    case EdgeContent(kind, source, target, _) => b.EdgeContent? && b.kind == kind && b.source == source && b.target == target
  }

  function Respond(hash: Content -> string, s: Log, e: Entity, c: Content): Answer {
    if e == SENTINEL && e in s.content then (if s.content[e] == c then Unchanged else Refused)
    else if e in s.content && SameHead(s.content[e], c) && hash(s.content[e]) == hash(c) then Unchanged
    else Changed
  }

  function CurrentRevision(s: Log, e: Entity): Option<string> {
    if e in s.current && s.current[e].revision != "" then Some(s.current[e].revision) else None
  }

  function Additions(s: Log, e: Entity, c: Content, h: string): seq<Record> {
    var replaced := if e in s.content then CurrentRevision(s, e) else None;
    var id := RevisionId(Prefix(e), e.id, s.counter + 1, h);
    [Revision(id, e, c, h, replaced, s.counter + 1)]
    + if replaced.Some? then [Tombstone(RevisionId(TombstonePrefix(e), e.id, s.counter + 2, h), e, replaced.value, id)] else []
  }

  function Write(hash: Content -> string, s: Log, e: Entity, c: Content): Log {
    if Respond(hash, s, e, c) != Changed then s
    else
      var added := Additions(s, e, c, hash(c));
      Log(s.content[e := c], s.current[e := Current(c, hash(c), added[0].id)], s.records + added, s.counter + |added|)
  }

  class RevisionStore {
    var content: map<Entity, Content>
    var current: map<Entity, Current>
    var records: seq<Record>
    var counter: nat
    const hash: Content -> string

    ghost function State(): Log
      reads this
    {
      Log(content, current, records, counter)
    }

    constructor (hash: Content -> string)
      ensures State() == EMPTY && this.hash == hash
    {
      content, current, records, counter := map[], map[], [], 0;
      this.hash := hash;
    }

    method NextRevisionNumber() returns (n: nat)
      modifies this`counter
      ensures n == counter == old(counter) + 1
    {
      counter := counter + 1;
      n := counter;
    }

    // `_append_node_if_updated` and `_append_edge_if_updated`, which differ only in what the content is.
    method AppendIfUpdated(e: Entity, c: Content) returns (answer: Answer)
      requires Fits(e, c)
      modifies this
      ensures answer == Respond(hash, old(State()), e, c)
      ensures State() == Write(hash, old(State()), e, c)
    {
      hide RevisionId, Prefix, TombstonePrefix;
      var existing := if e in content then Some(content[e]) else None;
      if e == SENTINEL && existing.Some? {
        if existing.value != c { return Refused; }
        return Unchanged;
      }
      var contentHash := hash(c);
      var replaced: Option<string> := None;
      if existing.Some? {
        var existingHash := hash(existing.value);
        replaced := if e in current && current[e].revision != "" then Some(current[e].revision) else None;
        if SameHead(existing.value, c) && existingHash == contentHash { return Unchanged; }
      }
      var number := NextRevisionNumber();
      var revision := RevisionId(Prefix(e), e.id, number, contentHash);
      records := records + [Revision(revision, e, c, contentHash, replaced, number)];
      if replaced.Some? {
        var next := NextRevisionNumber();
        records := records + [Tombstone(RevisionId(TombstonePrefix(e), e.id, next, contentHash), e, replaced.value, revision)];
      }
      content := content[e := c];
      current := current[e := Current(c, contentHash, revision)];
      return Changed;
    }

    // `load`: the nodes and edges are read back from the current projections.
    method Reload()
      modifies this`content
      ensures content == map e | e in current :: current[e].content
    {
      content := map[];
      var todo := current.Keys;
      while todo != {}
        invariant todo <= current.Keys
        invariant content == map e | e in current && e !in todo :: current[e].content
        decreases |todo|
      {
        var e :| e in todo;
        todo := todo - {e};
        content := content[e := current[e].content];
      }
    }
  }
}

/** What the log guarantees after any run of writes: one live revision per entity, links that are inverse and lead
    to it, and exactly one revision per changing write. */
module RevisionHistory {
  import opened Prelude
  import opened Text
  import opened RevisionLog

  // --- how records are linked -------------------------------------------------------------------------------

  predicate IsRevisionOf(r: Record, e: Entity) { r.Revision? && r.entity == e }

  // The index of the last revision of an entity among the first `n` records.
  function LastRevision(records: seq<Record>, e: Entity, n: nat): (p: Option<nat>)
    requires n <= |records|
    ensures p.Some? ==> p.value < n && IsRevisionOf(records[p.value], e)
                        && forall k :: p.value < k < n ==> !IsRevisionOf(records[k], e)
    ensures p.None? ==> forall k :: 0 <= k < n ==> !IsRevisionOf(records[k], e)
  {
    if n == 0 then None
    else if IsRevisionOf(records[n - 1], e) then Some(n - 1)
    else LastRevision(records, e, n - 1)
  }

  function IdAt(records: seq<Record>, p: Option<nat>): Option<string>
    requires p.Some? ==> p.value < |records|
  {
    match p
    case None => None
    case Some(i) => Some(records[i].id)
  }

  // A revision supersedes the previous revision of its entity and is followed by that one's tombstone; a
  // tombstone belongs to the revision right before it.
  ghost predicate LinkedAt(records: seq<Record>, i: nat)
    requires i < |records|
  {
    match records[i]
    case Revision(id, e, c, h, supersedes, number) =>
      && number == i + 1 && id == RevisionId(Prefix(e), e.id, i + 1, h)
      && supersedes == IdAt(records, LastRevision(records, e, i))
      && (supersedes.Some? <==> i + 1 < |records| && records[i + 1].Tombstone?)
    case Tombstone(id, e, retired, redirectsTo) =>
      && i > 0 && IsRevisionOf(records[i - 1], e)
      && id == RevisionId(TombstonePrefix(e), e.id, i + 1, records[i - 1].hash)
      && records[i - 1].supersedes == Some(retired) && redirectsTo == records[i - 1].id
  }

  ghost predicate Linked(records: seq<Record>) { forall i :: 0 <= i < |records| ==> LinkedAt(records, i) }

  ghost predicate CurrentIsLast(hash: Content -> string, s: Log, e: Entity) {
    var last := LastRevision(s.records, e, |s.records|);
    && (e in s.content <==> last.Some?)
    && (e in s.content ==>
          && s.records[last.value].content == s.content[e] && s.records[last.value].hash == hash(s.content[e])
          && e in s.current && s.current[e] == Current(s.content[e], hash(s.content[e]), s.records[last.value].id))
  }

  ghost predicate Good(hash: Content -> string, s: Log) {
    && Linked(s.records) && s.counter == |s.records| && s.current.Keys == s.content.Keys
    && forall e :: CurrentIsLast(hash, s, e)
  }

  lemma PrefixesColonFree(e: Entity)
    ensures ColonFree(Prefix(e)) && ColonFree(TombstonePrefix(e))
  {
  }

  // No two records share an id, so none is ever overwritten.
  lemma IdsDistinct(records: seq<Record>, i: nat, j: nat)
    requires Linked(records) && i < |records| && j < |records| && records[i].id == records[j].id
    ensures i == j
  {
    hide RevisionId, Linked;
    var pa, ha := IdParts(records, i);
    var pb, hb := IdParts(records, j);
    RevisionIdInjective(pa, records[i].entity.id, i + 1, ha, pb, records[j].entity.id, j + 1, hb);
  }

  lemma IdParts(records: seq<Record>, i: nat) returns (prefix: string, hash: string)
    requires Linked(records) && i < |records|
    ensures ColonFree(prefix) && records[i].id == RevisionId(prefix, records[i].entity.id, i + 1, hash)
  {
    PrefixesColonFree(records[i].entity);
    hide RevisionId, Prefix, TombstonePrefix, LastRevision;
    assert LinkedAt(records, i);
    match records[i]
    case Revision(_, e, _, h, _, _) => prefix, hash := Prefix(e), h;
    case Tombstone(_, e, _, _) => prefix, hash := TombstonePrefix(e), records[i - 1].hash;
  }

  // --- a write keeps the links ----------------------------------------------------------------------------------

  lemma {:induction false} LastRevisionOfPrefix(records: seq<Record>, more: seq<Record>, e: Entity, n: nat)
    requires n <= |records|
    ensures LastRevision(records + more, e, n) == LastRevision(records, e, n)
  {
    if n > 0 { LastRevisionOfPrefix(records, more, e, n - 1); }
  }

  lemma RevisionIdsNonEmpty(prefix: string, entity: string, n: nat, h: string)
    ensures RevisionId(prefix, entity, n, h) != ""
  {
    assert RevisionId(prefix, entity, n, h)[0] == 'r';
  }

  // What a changing write adds, in terms of the records alone.
  function NewRecords(records: seq<Record>, e: Entity, c: Content, h: string): seq<Record> {
    var n := |records|;
    var last := LastRevision(records, e, n);
    var id := RevisionId(Prefix(e), e.id, n + 1, h);
    [Revision(id, e, c, h, IdAt(records, last), n + 1)]
    + if last.Some? then [Tombstone(RevisionId(TombstonePrefix(e), e.id, n + 2, h), e, records[last.value].id, id)] else []
  }

  lemma AddedRecords(hash: Content -> string, s: Log, e: Entity, c: Content)
    requires Good(hash, s)
    ensures Additions(s, e, c, hash(c)) == NewRecords(s.records, e, c, hash(c))
  {
    hide RevisionId, Prefix, TombstonePrefix;
    assert CurrentIsLast(hash, s, e);
    if e in s.content {
      var last := LastRevision(s.records, e, |s.records|);
      assert LinkedAt(s.records, last.value);
      RevisionIdsNonEmpty(Prefix(e), e.id, last.value + 1, s.records[last.value].hash);
    }
  }

  lemma LinkKept(records: seq<Record>, more: seq<Record>, i: nat)
    requires Linked(records) && i < |records| && more != [] && more[0].Revision?
    ensures LinkedAt(records + more, i)
  {
    hide RevisionId, Prefix, TombstonePrefix, LastRevision;
    assert LinkedAt(records, i) && (records + more)[i] == records[i];
    LastRevisionOfPrefix(records, more, records[i].entity, i);
  }

  lemma LinksKept(records: seq<Record>, e: Entity, c: Content, h: string)
    requires Linked(records)
    ensures Linked(records + NewRecords(records, e, c, h))
  {
    hide RevisionId, Prefix, TombstonePrefix, LastRevision;
    var more := NewRecords(records, e, c, h);
    var all := records + more;
    forall i | 0 <= i < |all| ensures LinkedAt(all, i) {
      if i < |records| {
        LinkKept(records, more, i);
      } else {
        LastRevisionOfPrefix(records, more, e, |records|);
      }
    }
  }

  lemma LastAfter(records: seq<Record>, more: seq<Record>, e: Entity, d: Entity)
    requires 1 <= |more| <= 2 && IsRevisionOf(more[0], e) && (|more| == 2 ==> more[1].Tombstone?)
    ensures LastRevision(records + more, d, |records + more|)
            == if d == e then Some(|records|) else LastRevision(records, d, |records|)
  {
    var all := records + more;
    LastRevisionOfPrefix(records, more, d, |records|);
    assert all[|records|] == more[0];
    if |more| == 2 { assert all[|records| + 1] == more[1]; }
  }

  lemma WriteKeepsGood(hash: Content -> string, s: Log, e: Entity, c: Content)
    requires Good(hash, s)
    ensures Good(hash, Write(hash, s, e, c))
  {
    if Respond(hash, s, e, c) == Changed {
      AddedRecords(hash, s, e, c);
      LinksKept(s.records, e, c, hash(c));
      hide RevisionId, Prefix, TombstonePrefix, Linked, Additions, Respond;
      var more := Additions(s, e, c, hash(c));
      var s' := Write(hash, s, e, c);
      forall d ensures CurrentIsLast(hash, s', d) {
        assert CurrentIsLast(hash, s, d);
        LastAfter(s.records, more, e, d);
      }
    }
  }

  // --- one live revision, links that are inverse and lead to it -----------------------------------------------

  ghost predicate Retired(records: seq<Record>, id: string) {
    exists j :: 0 <= j < |records| && records[j].Tombstone? && records[j].retired == id
  }

  ghost predicate RedirectsTo(records: seq<Record>, a: string, b: string) {
    exists j :: 0 <= j < |records| && records[j].Tombstone? && records[j].retired == a && records[j].redirectsTo == b
  }

  ghost predicate Supersedes(records: seq<Record>, b: string, a: string) {
    exists k :: 0 <= k < |records| && records[k].Revision? && records[k].id == b && records[k].supersedes == Some(a)
  }

  // The supersedes links and the tombstones' redirects are the same links read in opposite directions.
  lemma LinksAreInverse(records: seq<Record>, a: string, b: string)
    requires Linked(records)
    ensures RedirectsTo(records, a, b) <==> Supersedes(records, b, a)
  {
    hide RevisionId, Prefix, TombstonePrefix, LastRevision;
    if RedirectsTo(records, a, b) {
      var j :| 0 <= j < |records| && records[j].Tombstone? && records[j].retired == a && records[j].redirectsTo == b;
      assert LinkedAt(records, j);
      assert records[j - 1].id == b && records[j - 1].supersedes == Some(a);
    }
    if Supersedes(records, b, a) {
      var k :| 0 <= k < |records| && records[k].Revision? && records[k].id == b && records[k].supersedes == Some(a);
      assert LinkedAt(records, k) && LinkedAt(records, k + 1);
      assert records[k + 1].retired == a && records[k + 1].redirectsTo == b;
    }
  }

  // A tombstone retires an earlier revision of its own entity and redirects to a later one.
  lemma RedirectRises(records: seq<Record>, i: nat, j: nat)
    requires Linked(records) && i < |records| && j < |records|
    requires records[i].Revision? && records[j].Tombstone? && records[j].retired == records[i].id
    ensures i < j - 1 && records[j - 1].Revision? && records[j - 1].id == records[j].redirectsTo
    ensures records[j - 1].entity == records[i].entity && LastRevision(records, records[i].entity, j - 1) == Some(i)
  {
    hide RevisionId, Prefix, TombstonePrefix;
    assert LinkedAt(records, j) && LinkedAt(records, j - 1);
    var p := LastRevision(records, records[j].entity, j - 1).value;
    IdsDistinct(records, p, i);
  }

  // The revision that follows revision `i` of its entity, when there is one among the first `n` records.
  lemma {:induction false} NextRevision(records: seq<Record>, e: Entity, i: nat, n: nat) returns (k: nat)
    requires i < n <= |records| && IsRevisionOf(records[i], e) && LastRevision(records, e, n) != Some(i)
    ensures i < k < n && IsRevisionOf(records[k], e) && LastRevision(records, e, k) == Some(i)
  {
    if IsRevisionOf(records[n - 1], e) && LastRevision(records, e, n - 1) == Some(i) {
      k := n - 1;
    } else {
      k := NextRevision(records, e, i, n - 1);
    }
  }

  // An entity has exactly one revision that is not tombstoned, and it is the one its current projection names.
  lemma OneLiveRevision(hash: Content -> string, s: Log, e: Entity, i: nat)
    requires Good(hash, s) && i < |s.records| && IsRevisionOf(s.records[i], e)
    ensures e in s.content && (!Retired(s.records, s.records[i].id) <==> s.current[e].revision == s.records[i].id)
    ensures s.current[e].revision == s.records[i].id ==>
              s.records[i].content == s.content[e] == s.current[e].content && s.current[e].hash == hash(s.content[e])
  {
    hide RevisionId, Prefix, TombstonePrefix;
    assert CurrentIsLast(hash, s, e);
    var last := LastRevision(s.records, e, |s.records|).value;
    if last == i {
      if Retired(s.records, s.records[i].id) {
        var j :| 0 <= j < |s.records| && s.records[j].Tombstone? && s.records[j].retired == s.records[i].id;
        RedirectRises(s.records, i, j);
        assert false;
      }
    } else {
      if s.records[last].id == s.records[i].id { IdsDistinct(s.records, last, i); }
      var k := NextRevision(s.records, e, i, |s.records|);
      assert LinkedAt(s.records, k) && LinkedAt(s.records, k + 1);
      assert s.records[k + 1].retired == s.records[i].id;
    }
  }

  ghost predicate Named(records: seq<Record>, id: string) { exists i :: 0 <= i < |records| && records[i].Revision? && records[i].id == id }

  ghost function Position(records: seq<Record>, id: string): (i: nat)
    requires Named(records, id)
    ensures i < |records| && records[i].Revision? && records[i].id == id
  {
    var i :| 0 <= i < |records| && records[i].Revision? && records[i].id == id; i
  }

  // A tombstone of a retired revision.
  ghost function TombstoneOf(records: seq<Record>, id: string): (j: nat)
    requires Retired(records, id)
    ensures j < |records| && records[j].Tombstone? && records[j].retired == id
  {
    var j :| 0 <= j < |records| && records[j].Tombstone? && records[j].retired == id; j
  }

  // Following redirects from a revision. The sequence numbers rise along the way, so it ends.
  ghost function Follow(records: seq<Record>, id: string): string
    requires Linked(records) && Named(records, id)
    decreases |records| - Position(records, id)
  {
    if Retired(records, id) then
      var i := Position(records, id);
      var j := TombstoneOf(records, id);
      RedirectRises(records, i, j);
      IdsDistinct(records, j - 1, Position(records, records[j].redirectsTo));
      Follow(records, records[j].redirectsTo)
    else id
  }

  // Wherever one starts in an entity's history, following redirects ends at its current revision.
  lemma {:induction false} RedirectsLeadToCurrent(hash: Content -> string, s: Log, id: string)
    requires Good(hash, s) && Named(s.records, id)
    ensures var e := s.records[Position(s.records, id)].entity;
            e in s.current && Follow(s.records, id) == s.current[e].revision
    decreases |s.records| - Position(s.records, id)
  {
    hide RevisionId, Prefix, TombstonePrefix, LastRevision, CurrentIsLast, LinkedAt;
    var i := Position(s.records, id);
    OneLiveRevision(hash, s, s.records[i].entity, i);
    if Retired(s.records, id) {
      var j := TombstoneOf(s.records, id);
      RedirectRises(s.records, i, j);
      IdsDistinct(s.records, j - 1, Position(s.records, s.records[j].redirectsTo));
      RedirectsLeadToCurrent(hash, s, s.records[j].redirectsTo);
    }
  }

  // The nodes and edges can be reloaded from the current projections alone.
  lemma ReloadIsExact(hash: Content -> string, s: Log)
    requires Good(hash, s)
    ensures (map e | e in s.current :: s.current[e].content) == s.content
  {
    forall e | e in s.current ensures s.current[e].content == s.content[e] { assert CurrentIsLast(hash, s, e); }
  }

  // --- runs of writes -----------------------------------------------------------------------------------------

  datatype Change = Change(entity: Entity, content: Content)

  function Run(hash: Content -> string, writes: seq<Change>): Log {
    if writes == [] then EMPTY
    else
      var last := writes[|writes| - 1];
      Write(hash, Run(hash, writes[..|writes| - 1]), last.entity, last.content)
  }

  lemma {:induction false} AlwaysGood(hash: Content -> string, writes: seq<Change>)
    ensures Good(hash, Run(hash, writes))
  {
    if writes != [] {
      AlwaysGood(hash, writes[..|writes| - 1]);
      var last := writes[|writes| - 1];
      WriteKeepsGood(hash, Run(hash, writes[..|writes| - 1]), last.entity, last.content);
    }
  }

  // Two contents that differ in their payloads at most.
  ghost predicate SameWords(a: Content, b: Content) {
    a.NodeContent? == b.NodeContent? && a.kind == b.kind && (a.EdgeContent? ==> a.source == b.source && a.target == b.target)
  }

  // What a write is told: a sentinel that stands refuses another content and nothing else is ever refused; with a
  // collision-free hash the answer is Unchanged exactly if the content is the one that stands.
  lemma AnswersExactly(hash: Content -> string, s: Log, e: Entity, c: Content)
    requires Injective(hash)
    ensures Respond(hash, s, e, c) == Unchanged <==> e in s.content && s.content[e] == c
    ensures Respond(hash, s, e, c) == Refused <==> e == SENTINEL && e in s.content && s.content[e] != c
    ensures Respond(hash, s, e, c) != Changed <==> Write(hash, s, e, c).records == s.records
  {
    hide Additions;
    assert |Additions(s, e, c, hash(c))| > 0 by { OneMoreRecord(s, e, c, hash(c)); }
  }

  lemma OneMoreRecord(s: Log, e: Entity, c: Content, h: string)
    ensures |Additions(s, e, c, h)| > 0
  {
  }

  // A write is visible afterwards unless it is refused, or dropped because the payload's hash collides.
  lemma WriteTakesEffectExactly(hash: Content -> string, s: Log, e: Entity, c: Content)
    requires Good(hash, s)
    ensures e in Write(hash, s, e, c).content
    ensures Write(hash, s, e, c).content[e] == c <==>
              !(e in s.content && s.content[e] != c
                && (e == SENTINEL || (SameWords(s.content[e], c) && hash(s.content[e]) == hash(c))))
    ensures e in s.content && s.content[e] == c ==> Write(hash, s, e, c) == s
    ensures forall d :: d != e && d in s.content ==> d in Write(hash, s, e, c).content && Write(hash, s, e, c).content[d] == s.content[d]
  {
    hide Additions, Good;
  }

  // The plain reading of a run: the last write wins, the sentinel's first write wins.
  function Latest(writes: seq<Change>, e: Entity): Option<Content> {
    if writes == [] then None
    else
      var before := Latest(writes[..|writes| - 1], e);
      var last := writes[|writes| - 1];
      if last.entity != e || (e == SENTINEL && before.Some?) then before else Some(last.content)
  }

  // How many writes of a run change the entity.
  function Changes(writes: seq<Change>, e: Entity): nat {
    if writes == [] then 0
    else Changes(writes[..|writes| - 1], e) + if Latest(writes, e) != Latest(writes[..|writes| - 1], e) then 1 else 0
  }

  function Revisions(records: seq<Record>, e: Entity): nat {
    if records == [] then 0
    else Revisions(records[..|records| - 1], e) + if IsRevisionOf(records[|records| - 1], e) then 1 else 0
  }

  function Tombstones(records: seq<Record>, e: Entity): nat {
    if records == [] then 0
    else
      var last := records[|records| - 1];
      Tombstones(records[..|records| - 1], e) + if last.Tombstone? && last.entity == e then 1 else 0
  }

  lemma CountsAppend(records: seq<Record>, r: Record, e: Entity)
    ensures Revisions(records + [r], e) == Revisions(records, e) + if IsRevisionOf(r, e) then 1 else 0
    ensures Tombstones(records + [r], e) == Tombstones(records, e) + if r.Tombstone? && r.entity == e then 1 else 0
  {
    assert (records + [r])[..|records|] == records;
  }

  lemma CountsAfter(records: seq<Record>, more: seq<Record>, e: Entity, d: Entity)
    requires 1 <= |more| <= 2 && IsRevisionOf(more[0], e) && (|more| == 2 ==> more[1].Tombstone? && more[1].entity == e)
    ensures Revisions(records + more, d) == Revisions(records, d) + if d == e then 1 else 0
    ensures Tombstones(records + more, d) == Tombstones(records, d) + if d == e && |more| == 2 then 1 else 0
  {
    CountsAppend(records, more[0], d);
    if |more| == 2 {
      CountsAppend(records + [more[0]], more[1], d);
      assert records + more == records + [more[0]] + [more[1]];
    } else {
      assert records + more == records + [more[0]];
    }
  }

  // What one write does to the counts of any entity.
  lemma WriteCounts(hash: Content -> string, s: Log, e: Entity, c: Content, d: Entity)
    requires Good(hash, s)
    ensures var s' := Write(hash, s, e, c);
            if Respond(hash, s, e, c) != Changed then s' == s
            else
              && s'.content == s.content[e := c]
              && Revisions(s'.records, d) == Revisions(s.records, d) + (if d == e then 1 else 0)
              && Tombstones(s'.records, d) == Tombstones(s.records, d) + if d == e && e in s.content then 1 else 0
  {
    hide RevisionId, Prefix, TombstonePrefix, Linked, LastRevision, Respond;
    AddedRecords(hash, s, e, c);
    assert CurrentIsLast(hash, s, e);
    hide Additions, Good;
    CountsAfter(s.records, NewRecords(s.records, e, c, hash(c)), e, d);
  }

  ghost predicate Injective(hash: Content -> string) { forall a, b :: hash(a) == hash(b) ==> a == b }

  ghost predicate CountsMatch(s: Log, writes: seq<Change>, e: Entity) {
    && (if e in s.content then Some(s.content[e]) else None) == Latest(writes, e)
    && Revisions(s.records, e) == Changes(writes, e)
    && Tombstones(s.records, e) == (if Changes(writes, e) == 0 then 0 else Changes(writes, e) - 1)
    && (Changes(writes, e) == 0 <==> e !in s.content)
  }

  // Over every run of writes to any entities: the store holds the last write of each, an entity written with n
  // changes has n revisions and n - 1 tombstones, and a rewrite of the same content appends nothing.
  lemma {:induction false} RevisionsCountChanges(hash: Content -> string, writes: seq<Change>, e: Entity)
    requires Injective(hash)
    ensures CountsMatch(Run(hash, writes), writes, e)
  {
    if writes != [] {
      hide Write, Good, Revisions, Tombstones;
      var init, last := writes[..|writes| - 1], writes[|writes| - 1];
      RevisionsCountChanges(hash, init, e);
      AlwaysGood(hash, init);
      hide CountsMatch;
      CountsStep(hash, Run(hash, init), writes, e);
    }
  }

  lemma CountsStep(hash: Content -> string, s: Log, writes: seq<Change>, e: Entity)
    requires Injective(hash) && Good(hash, s) && writes != [] && CountsMatch(s, writes[..|writes| - 1], e)
    ensures CountsMatch(Write(hash, s, writes[|writes| - 1].entity, writes[|writes| - 1].content), writes, e)
  {
    var last := writes[|writes| - 1];
    WriteCounts(hash, s, last.entity, last.content, e);
    hide Write, Good, Revisions, Tombstones;
  }
}
