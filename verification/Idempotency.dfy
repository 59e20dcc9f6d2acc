/** The idempotency record of one scope: claimed before a request is forwarded, moved on by the claimant, replayed
    to later requests until it expires. A record's fields are optional, as in the stored dictionary. */
module Idempotency {
  import opened Prelude
  import opened Base64
  import opened ProjectionSwap
  import GraphState

  datatype Phase = Reserved | Forwarding | Settled | Uncertain | Released

  datatype Record = Record(
    payloadHash: Option<string>,
    phase: Option<Phase>,
    expires: Option<nat>,
    status: Option<nat>,
    headers: Option<string>,
    replayable: Option<bool>,
    body: Option<seq<Byte>>,        // only ever in a cache
    bodyB64: Option<string>)        // only ever written by encoding a body

  const BLANK := Record(None, None, None, None, None, None, None, None)

  function Or<T>(a: Option<T>, b: Option<T>): Option<T> { if a.Some? then a else b }

  // `{**old, **new}`
  function Merge(old_: Record, new_: Record): Record {
    Record(Or(new_.payloadHash, old_.payloadHash), Or(new_.phase, old_.phase), Or(new_.expires, old_.expires),
           Or(new_.status, old_.status), Or(new_.headers, old_.headers), Or(new_.replayable, old_.replayable),
           Or(new_.body, old_.body), Or(new_.bodyB64, old_.bodyB64))
  }

  predicate Live(r: Record, now: nat) { r.expires.Some? && r.expires.value > now }

  // The stored form of a record: the body only as base64 text.
  function Durable(r: Record): Record {
    r.(body := None, bodyB64 := if r.body.Some? then Some(Encode(Standard, r.body.value)) else r.bodyB64)
  }

  const UNDECODABLE := "stored body is not base64"

  // What a reader makes of a stored record; text that does not decode raises.
  function Loaded(r: Record): Result<Record, string> {
    match r.bodyB64
    case None => Ok(r)
    case Some(text) =>
      match Decode(Standard, text)
      case None => Err(UNDECODABLE)
      case Some(bytes) => Ok(r.(body := Some(bytes), bodyB64 := None))
  }

  type Store = GraphState.GraphStateStore<string, Record>

  // One gateway process: its own cache in front of the shared projections.
  class Worker {
    const store: Store
    const retries: nat
    var cache: map<string, Record>

    constructor (store: Store, retries: nat)
      ensures this.store == store && cache == map[]
    {
      this.store, this.retries := store, retries;
      cache := map[];
    }

    method ReadRecord(scope: string, now: nat) returns (found: Result<Option<Record>, string>)
      modifies this
      ensures scope in old(cache) && Live(old(cache)[scope], now) ==> found == Ok(Some(old(cache)[scope])) && cache == old(cache)
      ensures !(scope in old(cache) && Live(old(cache)[scope], now)) ==>
                if scope in store.projections && Live(store.projections[scope], now) then
                  match Loaded(store.projections[scope])
                  case Ok(result) => found == Ok(Some(result)) && cache == old(cache)[scope := result]
                  case Err(e) => found == Err(e) && cache == old(cache)
                else found == Ok(None) && cache == old(cache)
    {
      if scope in cache && Live(cache[scope], now) { return Ok(Some(cache[scope])); }
      var row := store.GetNamedProjection(scope);
      if row.Some? && Live(row.value, now) {
        var result := Loaded(row.value);
        if result.Err? { return Err(result.error); }
        cache := cache[scope := result.value];
        return Ok(Some(result.value));
      }
      return Ok(None);
    }

    // A claim goes through exactly if no live record stands.
    method Claim(scope: string, record: Record, now: nat) returns (ok: bool)
      requires store.Valid()
      modifies this, store
      ensures store.Valid()
      ensures ok <==> !(scope in old(store.projections) && Live(old(store.projections)[scope], now))
      ensures store.projections == if ok then old(store.projections)[scope := record] else old(store.projections)
      ensures cache == if ok then old(cache)[scope := record] else old(cache)
    {
      var current := store.GetNamedProjection(scope);
      if current.Some? && Live(current.value, now) { return false; }
      var updates: seq<Update<string, Record>> := [Update(scope, record, current)];
      assert updates[..0] == [];
      assert AllMatch(store.projections, updates) <==> ProjectionSwap.Read(store.projections, updates[0].key) == current;
      ok := store.CompareAndSwapNamedProjections(updates);
      cache := cache[scope := record];
    }

    // A state transition: merge over whatever is stored, keep the body's bytes in the cache.
    method Write(scope: string, record: Record) returns (ok: bool)
      requires store.Valid()
      modifies this, store
      ensures store.Valid() && ok
      ensures var existing := if scope in old(store.projections) then old(store.projections)[scope] else BLANK;
              var merged := Merge(existing, Durable(record));
              && store.projections == old(store.projections)[scope := merged]
              && cache == old(cache)[scope := if record.body.Some? then merged.(body := record.body) else merged]
    {
      hide Encode;
      var payload := Durable(record);
      ok := false;
      var attempts := retries + 1;
      while !ok && attempts > 0
        invariant store.Valid() && cache == old(cache)
        invariant !ok ==> attempts == retries + 1 && store.projections == old(store.projections)
        invariant ok ==> store.projections == old(store.projections)[scope :=
                           Merge(if scope in old(store.projections) then old(store.projections)[scope] else BLANK, payload)]
        decreases attempts
      {
        var current := store.GetNamedProjection(scope);
        var merged := Merge(if current.Some? then current.value else BLANK, payload);
        var updates: seq<Update<string, Record>> := [Update(scope, merged, current)];
        assert updates[..0] == [];
        assert AllMatch(store.projections, updates) <==> ProjectionSwap.Read(store.projections, updates[0].key) == current;
        ok := store.CompareAndSwapNamedProjections(updates);
        attempts := attempts - 1;
      }
      var merged := store.projections[scope];
      cache := cache[scope := if record.body.Some? then merged.(body := record.body) else merged];
    }
  }

  // --- the gate ----------------------------------------------------------------------------------------------

  datatype Reply =
    | Claimable                                                                 // no live record: try to claim
    | Conflict(reason: string)                                                  // 409
    | BadGateway(reason: string)                                                // 502
    | Replay(status: nat, headers: Option<string>, body: Option<seq<Byte>>)

  // What a request with payload hash `hash` gets for a record it has read.
  function Gate(found: Option<Record>, hash: string, now: nat): Reply {
    if found.None? || !Live(found.value, now) then Claimable
    else
      var r := found.value;
      if r.payloadHash != Some(hash) then Conflict("idempotency_key_reused_with_different_payload")
      else if r.phase == Some(Uncertain) then BadGateway("idempotency_outcome_uncertain")
      else if r.phase == Some(Reserved) || r.phase == Some(Forwarding) then Conflict("idempotency_request_in_progress")
      else if r.phase == Some(Settled) && r.replayable == Some(false) then Conflict("idempotency_stream_result_not_replayable")
      else Replay(if r.status.Some? then r.status.value else 200, r.headers, r.body)
  }

  // Which live records are answered how. A request in progress, an uncertain one and a stream's result are never
  // replayed; every other live record with the request's hash is, with status 200 when it carries none.
  lemma GateExactly(r: Record, hash: string, now: nat)
    ensures Gate(None, hash, now) == Claimable
    ensures Gate(Some(r), hash, now) == Claimable <==> r.expires.None? || r.expires.value <= now
    ensures r.expires.Some? && r.expires.value > now ==>
              var reply := Gate(Some(r), hash, now);
              && (r.payloadHash != Some(hash) ==> reply == Conflict("idempotency_key_reused_with_different_payload"))
              && (r.payloadHash == Some(hash) ==>
                    && (r.phase == Some(Uncertain) ==> reply == BadGateway("idempotency_outcome_uncertain"))
                    && (r.phase == Some(Reserved) || r.phase == Some(Forwarding) ==> reply == Conflict("idempotency_request_in_progress"))
                    && (r.phase == Some(Settled) && r.replayable == Some(false) ==> reply == Conflict("idempotency_stream_result_not_replayable"))
                    && (reply.Replay? <==> !(r.phase == Some(Uncertain) || r.phase == Some(Reserved) || r.phase == Some(Forwarding)
                                             || (r.phase == Some(Settled) && r.replayable == Some(false))))
                    && (reply.Replay? ==> reply.headers == r.headers && reply.body == r.body && (r.status.None? ==> reply.status == 200)
                                          && (r.status.Some? ==> reply.status == r.status.value)))
  {
  }

  // --- records as dictionaries ----------------------------------------------------------------------------------

  datatype Field = HashField | StateField | ExpiresField | StatusField | HeadersField | ReplayableField | BodyField | BodyB64Field

  datatype FieldValue = TextValue(text: string) | PhaseValue(phase: Phase) | NumberValue(number: nat) | FlagValue(flag: bool) | BytesValue(bytes: seq<Byte>)

  function TextOf(v: Option<string>): Option<FieldValue> { if v.Some? then Some(TextValue(v.value)) else None }

  function NumberOf(v: Option<nat>): Option<FieldValue> { if v.Some? then Some(NumberValue(v.value)) else None }

  function Lookup(r: Record, f: Field): Option<FieldValue> {
    match f
    case HashField => TextOf(r.payloadHash)
    case StateField => if r.phase.Some? then Some(PhaseValue(r.phase.value)) else None
    case ExpiresField => NumberOf(r.expires)
    case StatusField => NumberOf(r.status)
    case HeadersField => TextOf(r.headers)
    case ReplayableField => if r.replayable.Some? then Some(FlagValue(r.replayable.value)) else None
    case BodyField => if r.body.Some? then Some(BytesValue(r.body.value)) else None
    case BodyB64Field => TextOf(r.bodyB64)
  }

  // The dictionary a record stands for: a field that is None is not in it.
  function Dictionary(r: Record): map<Field, FieldValue> { map f | Lookup(r, f).Some? :: Lookup(r, f).value }

  // Merging records is updating one dictionary with another: every field of the new one wins, the others stay.
  lemma MergeIsUpdate(old_: Record, new_: Record)
    ensures Dictionary(Merge(old_, new_)) == Dictionary(old_) + Dictionary(new_)
  {
    forall f ensures Lookup(Merge(old_, new_), f) == if Lookup(new_, f).Some? then Lookup(new_, f) else Lookup(old_, f) {}
    hide Lookup, Merge;
  }

  // What is stored comes back: the body's bytes decoded from their text, everything else as it is. Text that is not
  // base64 is the one thing that raises.
  lemma StoredComesBack(r: Record)
    ensures r.bodyB64.None? ==> Loaded(Durable(r)) == Ok(r)
    ensures r.body.None? ==> Durable(r) == r
    ensures Durable(r).body.None?
    ensures Loaded(r).Err? <==> r.bodyB64.Some? && Decode(Standard, r.bodyB64.value).None?
  {
    if r.body.Some? { DecodeEncode(Standard, r.body.value); }
    hide Encode, Decode;
  }

  // --- runs of one claimant and its readers ------------------------------------------------------------------------

  // A claim, the settled response, a replay to the same process, and a replay to a process that starts later
  // with an empty cache: both replays return the very bytes, status and headers that were settled, to a request
  // with the same payload, for as long as the claim lasts.
  method SettleAndReplay(worker: Worker, scope: string, hash: string, claimed: nat, retention: nat, status: nat, headers: string,
                         body: seq<Byte>, later: nat) returns (claim: bool, here: Reply, restarted: Reply)
    requires worker.store.Valid() && claimed <= later < claimed + retention
    modifies worker, worker.store
    ensures claim <==> !(scope in old(worker.store.projections) && Live(old(worker.store.projections)[scope], claimed))
    ensures claim ==> here == Replay(status, Some(headers), Some(body)) && restarted == here
  {
    hide Encode, Decode;
    claim := worker.Claim(scope, Claimed(hash, claimed + retention), claimed);
    if !claim { return false, Claimable, Claimable; }
    var done := worker.cache[scope].(phase := Some(Settled), status := Some(status), headers := Some(headers), body := Some(body));
    var _ := worker.Write(scope, done);
    var mine := worker.ReadRecord(scope, later);
    here := Gate(mine.value, hash, later);
    DecodeEncode(Standard, body);
    var other := new Worker(worker.store, worker.retries);
    var theirs := other.ReadRecord(scope, later);
    restarted := Gate(theirs.value, hash, later);
  }

  // A request with another payload under the same key never gets the stored response.
  lemma OtherPayloadRefused(found: Option<Record>, hash: string, other: string, now: nat)
    requires found.Some? && Live(found.value, now) && found.value.payloadHash == Some(hash)
    ensures Gate(found, other, now).Replay? ==> other == hash
    ensures other != hash ==> Gate(found, other, now) == Conflict("idempotency_key_reused_with_different_payload")
  {
  }

  // What the claim writes (also read by the claimant's process from its cache).
  function Claimed(hash: string, expires: nat): Record {
    BLANK.(payloadHash := Some(hash), phase := Some(Forwarding), expires := Some(expires))
  }

  // Between a claim and the claimant's next write every request with the same payload is told that one is in
  // progress, by the same process and by one that starts later, until the claim expires; then it may claim.
  method InProgressUntilWritten(worker: Worker, scope: string, hash: string, claimed: nat, retention: nat, later: nat)
    returns (claim: bool, here: Reply, restarted: Reply)
    requires worker.store.Valid() && claimed <= later
    modifies worker, worker.store
    ensures claim <==> !(scope in old(worker.store.projections) && Live(old(worker.store.projections)[scope], claimed))
    ensures claim && later < claimed + retention ==> here == restarted == Conflict("idempotency_request_in_progress")
    ensures claim && later >= claimed + retention ==> here == restarted == Claimable
  {
    hide Encode, Decode;
    claim := worker.Claim(scope, Claimed(hash, claimed + retention), claimed);
    if !claim { return false, Claimable, Claimable; }
    var mine := worker.ReadRecord(scope, later);
    here := Gate(mine.value, hash, later);
    var other := new Worker(worker.store, worker.retries);
    var theirs := other.ReadRecord(scope, later);
    restarted := Gate(theirs.value, hash, later);
  }

  // The answer of the claimant's own process, and of one that starts later with an empty cache.
  method AskBoth(worker: Worker, scope: string, hash: string, now: nat) returns (here: Reply, restarted: Reply)
    requires scope in worker.cache && Live(worker.cache[scope], now)
    requires scope in worker.store.projections && Live(worker.store.projections[scope], now) && Loaded(worker.store.projections[scope]).Ok?
    modifies worker
    ensures worker.cache == old(worker.cache)
    ensures here == Gate(Some(worker.cache[scope]), hash, now)
    ensures restarted == Gate(Some(Loaded(worker.store.projections[scope]).value), hash, now)
  {
    hide Loaded, Gate;
    var mine := worker.ReadRecord(scope, now);
    here := Gate(mine.value, hash, now);
    var late := new Worker(worker.store, worker.retries);
    var theirs := late.ReadRecord(scope, now);
    restarted := Gate(theirs.value, hash, now);
  }

  // The end of a stream: the claimant writes the outcome and a new expiry over the stored claim, without its hash and
  // without a body. The claim's hash stays, so another payload is refused, and the same payload gets no replay: a
  // settled stream is not replayable, an uncertain one is a bad gateway.
  method StreamAndRead(worker: Worker, scope: string, hash: string, other: string, claimed: nat, retention: nat, settled: bool,
                       ended: nat, later: nat)
    returns (claim: bool, here: Reply, restarted: Reply, foreign: Reply)
    requires worker.store.Valid() && claimed <= ended <= later < ended + retention && other != hash
    modifies worker, worker.store
    ensures claim <==> !(scope in old(worker.store.projections) && Live(old(worker.store.projections)[scope], claimed))
    ensures claim ==> here == restarted
    ensures claim ==> here == if settled then Conflict("idempotency_stream_result_not_replayable") else BadGateway("idempotency_outcome_uncertain")
    ensures claim ==> foreign == Conflict("idempotency_key_reused_with_different_payload")
  {
    hide Encode, Decode;
    claim := worker.Claim(scope, Claimed(hash, claimed + retention), claimed);
    if !claim { return false, Claimable, Claimable, Claimable; }
    ghost var merged := Claimed(hash, claimed + retention).(phase := Some(if settled then Settled else Uncertain), replayable := Some(false),
                                                             status := Some(200), expires := Some(ended + retention));
    GateExactly(merged, hash, later);
    GateExactly(merged, other, later);
    var outcome := BLANK.(phase := Some(if settled then Settled else Uncertain), replayable := Some(false), status := Some(200),
                          expires := Some(ended + retention));
    assert Merge(Claimed(hash, claimed + retention), Durable(outcome)) == merged;
    var _ := worker.Write(scope, outcome);
    hide Gate, Merge;
    here, restarted := AskBoth(worker, scope, hash, later);
    var _, theirs := AskBoth(worker, scope, other, later);
    foreign := theirs;
  }
}
