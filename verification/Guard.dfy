/** The guard's operations as they run when no other worker interferes, on a real store: loops that read
    projections, build an update list and swap it. Each is proved against the outcome of its whole call; `SoloRuns`
    proves that the protocol's steps of the call, run without interruption, have that same outcome. */
module Guard {
  import opened Prelude
  import opened Calendar
  import opened Reservations
  import opened ProjectionSwap
  import opened Protocol
  import GraphState
  import UsageLedger

  type Store = GraphState.GraphStateStore<Key, Value>

  // --- the lanes a settlement debits --------------------------------------------------------------------------

  function CounterOf(a: Addr, now: Time): Key { CounterKey(a, Bucket(now, a.period)) }

  // What is read for a list of lanes: one entry per distinct lane.
  function ReadLanes(table: map<Key, Value>, lanes: seq<Addr>, now: Time): map<Key, Option<Value>> {
    if lanes == [] then map[]
    else
      var k := CounterOf(lanes[|lanes| - 1], now);
      ReadLanes(table, lanes[..|lanes| - 1], now)[k := Read(table, k)]
  }

  lemma {:induction false} ReadLanesAre(table: map<Key, Value>, lanes: seq<Addr>, now: Time)
    ensures Matches(table, ReadLanes(table, lanes, now))
    ensures forall k :: k in ReadLanes(table, lanes, now) <==> k.CounterKey? && k.addr in lanes && k == CounterOf(k.addr, now)
    ensures DebitedLanes(ReadLanes(table, lanes, now)) == set a | a in lanes
  {
    hide Bucket;
    var observed := ReadLanes(table, lanes, now);
    if lanes != [] {
      var n := |lanes| - 1;
      ReadLanesAre(table, lanes[..n], now);
      assert forall a :: a in lanes <==> a in lanes[..n] || a == lanes[n] by {
        assert lanes == lanes[..n] + [lanes[n]];
      }
    }
    forall a | a in lanes ensures a in DebitedLanes(observed) { assert CounterOf(a, now) in observed; }
  }

  // --- update lists ---------------------------------------------------------------------------------------------

  // An update list that says what a map of writes and a map of expectations say.
  ghost predicate Lists(updates: seq<Update<Key, Value>>, expects: map<Key, Option<Value>>, writes: map<Key, Value>) {
    && DistinctKeys(updates) && ExpectedOf(updates) == expects && WritesOf(updates) == writes
  }

  lemma ListsOneMore(updates: seq<Update<Key, Value>>, expects: map<Key, Option<Value>>, writes: map<Key, Value>, u: Update<Key, Value>)
    requires Lists(updates, expects, writes) && u.key !in expects
    ensures Lists(updates + [u], expects[u.key := u.expected], writes[u.key := u.payload])
  {
    assert (updates + [u])[..|updates|] == updates;
    SameKeys(updates);
    forall i | 0 <= i < |updates| ensures updates[i].key != u.key {
      assert updates[i] in updates;
    }
  }

  lemma EmptyLists(table: map<Key, Value>, now: Time, actual: Charge)
    ensures Lists([], ReadLanes(table, [], now), CounterWrites(ReadLanes(table, [], now), actual))
  {
  }

  lemma LaneRepeated(table: map<Key, Value>, lanes: seq<Addr>, a: Addr, now: Time)
    requires a in lanes
    ensures ReadLanes(table, lanes + [a], now) == ReadLanes(table, lanes, now)
  {
    hide Bucket;
    ReadLanesAre(table, lanes, now);
    assert (lanes + [a])[..|lanes|] == lanes;
    var k := CounterOf(a, now);
    assert k in ReadLanes(table, lanes, now);
  }

  lemma LaneAdded(table: map<Key, Value>, lanes: seq<Addr>, a: Addr, now: Time, actual: Charge,
                  updates: seq<Update<Key, Value>>, u: Update<Key, Value>)
    requires a !in lanes && Lists(updates, ReadLanes(table, lanes, now), CounterWrites(ReadLanes(table, lanes, now), actual))
    requires u.key == CounterOf(a, now) && u.expected == Read(table, u.key)
    requires u.payload == TotalsValue(Plus(AsTotals(u.expected), actual))
    ensures var observed := ReadLanes(table, lanes + [a], now); Lists(updates + [u], observed, CounterWrites(observed, actual))
  {
    hide Bucket;
    ReadLanesAre(table, lanes, now);
    assert (lanes + [a])[..|lanes|] == lanes;
    var observed := ReadLanes(table, lanes, now);
    ListsOneMore(updates, observed, CounterWrites(observed, actual), u);
    hide Lists, ReadLanes;
    assert CounterWrites(observed[u.key := u.expected], actual) == CounterWrites(observed, actual)[u.key := u.payload];
  }

  lemma TableListed(table: Option<Table>, s: Protocol.Settlement, observed: map<Key, Option<Value>>, updates: seq<Update<Key, Value>>)
    requires Lists(updates, observed, CounterWrites(observed, s.actual)) && (forall k :: k in observed ==> k.CounterKey?)
    requires HasReservation(table, s)
    ensures Lists(updates + [Update.Update(TableKey, TableWrites(table, s)[TableKey], TableExpects(table, s)[TableKey])],
                  observed + TableExpects(table, s), CounterWrites(observed, s.actual) + TableWrites(table, s))
  {
    hide SettledRow, Lists;
    var u := Update.Update(TableKey, TableWrites(table, s)[TableKey], TableExpects(table, s)[TableKey]);
    ListsOneMore(updates, observed, CounterWrites(observed, s.actual), u);
    assert observed[u.key := u.expected] == observed + TableExpects(table, s);
    assert CounterWrites(observed, s.actual)[u.key := u.payload] == CounterWrites(observed, s.actual) + TableWrites(table, s);
  }

  lemma MarkerListed(table: Option<Table>, s: Protocol.Settlement, observed: map<Key, Option<Value>>, updates: seq<Update<Key, Value>>)
    requires Lists(updates, observed + TableExpects(table, s), CounterWrites(observed, s.actual) + TableWrites(table, s))
    requires forall k :: k in observed ==> k.CounterKey?
    ensures Lists(updates + [Update.Update(MarkerKey(s.rid), MarkerValue(MarkerFor(s, DebitedLanes(observed))), None)],
                  SettleExpects(table, s, observed), SettleWrites(table, s, observed))
  {
    hide SettledRow, Lists;
    var u := Update.Update(MarkerKey(s.rid), MarkerValue(MarkerFor(s, DebitedLanes(observed))), None);
    var expects, writes := observed + TableExpects(table, s), CounterWrites(observed, s.actual) + TableWrites(table, s);
    ListsOneMore(updates, expects, writes, u);
    assert expects[u.key := u.expected] == SettleExpects(table, s, observed);
    assert writes[u.key := u.payload] == SettleWrites(table, s, observed);
  }

  // The projections an edit leaves: its rows and time stamp, or no change when it has nothing to write.
  function Edited(projections: map<Key, Value>, e: Edit, now: Time): map<Key, Value> {
    match EditRows(RowsOf(projections), e, now)
    case None => projections
    case Some(rows) => projections[TableKey := TableValue(Table(rows, EditStamp(e, now)))]
  }

  // Every limit comparison of an admission passes.
  ghost predicate AllFit(cfg: Config, store: map<Key, Value>, req: Request, now: Time) {
    forall c, m :: c in Checks(cfg, req.caller) ==> Fits(Get(Used(store, c.addr, now), m), RowsOf(store), c, m, req.estimate, now)
  }

  // The answer of a reserve call alone on the store: an id that holds a row is let in as it is, a request that fits is
  // let in unless the table is a left-over without rows.
  ghost predicate Reserves(cfg: Config, store: map<Key, Value>, req: Request, now: Time) {
    AllFit(cfg, store, req, now) && (TableOf(store).Some? ==> TableOf(store).value.rows != map[])
  }

  ghost function AfterReserving(cfg: Config, store: map<Key, Value>, req: Request, now: Time): map<Key, Value> {
    if req.rid !in Prune(RowsOf(store)) && Reserves(cfg, store, req, now)
    then store[TableKey := TableValue(Admit(TableOf(store), req, now, cfg))]
    else store
  }

  // The projections the settlement swap of an unsettled request leaves.
  function SettledStore(cfg: Config, store: map<Key, Value>, s: Protocol.Settlement): map<Key, Value> {
    var table := TableOf(store);
    store + SettleWrites(table, s, ReadLanes(store, LanesToDebit(cfg, table, s), s.now))
  }

  lemma SettleMatches(cfg: Config, store: map<Key, Value>, s: Protocol.Settlement)
    requires MarkerKey(s.rid) !in store && Typed(store)
    ensures var table := TableOf(store);
            Matches(store, SettleExpects(table, s, ReadLanes(store, LanesToDebit(cfg, table, s), s.now)))
  {
    hide Bucket, LanesToDebit;
    ReadLanesAre(store, LanesToDebit(cfg, TableOf(store), s), s.now);
  }

  // The settlement the reconciler asks for: no user or token is known any more.
  function ReconcileSettlement(rid: Rid, row: Row, usd: Option<nat>, tokens: Option<nat>, now: Time): Protocol.Settlement {
    Settlement(rid, Caller(row.principal, row.key, "", ""), row.estimate,
               Charge(if usd.Some? then usd.value else row.estimate.usd, if tokens.Some? then tokens.value else row.estimate.tokens), now)
  }

  type Contents = GraphState.Graph<Key, Value>

  function Book(g: Contents, s: Protocol.Settlement, actual: Charge): Contents {
    if LedgerSubject(s) == "" then g
    else GraphState.AppendUsage(g, LedgerSubject(s), GraphState.UsageEvent(s.rid, actual.usd, actual.tokens))
  }

  // What a settlement alone on the store leaves: a request without a marker is debited, closed and marked in one swap
  // and then booked in the ledger; one with a marker is booked, with the marker's amounts, if it has no event yet.
  ghost function AfterSettling(cfg: Config, g: Contents, s: Protocol.Settlement): Contents
    requires Typed(g.projections)
  {
    if !Marked(g.projections, s.rid) then Book(g.(projections := SettledStore(cfg, g.projections, s)), s, s.actual)
    else if UsageLedger.Scan(g.nodes, s.rid) then g
    else Book(g, s, g.projections[MarkerKey(s.rid)].marker.actual)
  }

  lemma BookKeepsProjections(g: Contents, s: Protocol.Settlement, actual: Charge)
    ensures Book(g, s, actual).projections == g.projections
  {
    hide GraphState.AppendUsage;
    LedgerKeepsProjections(g, LedgerSubject(s), GraphState.UsageEvent(s.rid, actual.usd, actual.tokens));
  }

  lemma LedgerKeepsProjections(g: GraphState.Graph<Key, Value>, subject: string, event: GraphState.UsageEvent)
    ensures GraphState.AppendUsage(g, subject, event).projections == g.projections
  {
    GraphState.LedgerRecordsUnfold(g, subject, event);
  }

  // The operator's word on an uncertain request.
  datatype Resolution = Settle | Release | KeepUncertain

  class ModelKeyGuard {
    const store: Store
    const config: Config

    constructor (store: Store, config: Config)
      ensures this.store == store && this.config == config
    {
      this.store, this.config := store, config;
    }

    // `_reservation_payload`
    method ReservationTable() returns (table: Option<Table>)
      ensures table == TableOf(store.projections)
    {
      var row := store.GetNamedProjection(TableKey);
      table := if row.Some? && row.value.TableValue? then Some(row.value.table) else None;
    }

    method QuotaUsed(a: Addr, now: Time) returns (used: Totals)
      ensures used == Used(store.projections, a, now)
    {
      var row := store.GetNamedProjection(CounterKey(a, Bucket(now, a.period)));
      used := if row.Some? && row.value.TotalsValue? then row.value.totals else ZERO;
    }

    // `_cas_reservation_payload`: an existing table without rows is compared as if it were absent.
    method SwapTable(next: Table, seen: Option<Table>) returns (ok: bool)
      requires store.Valid()
      modifies store
      ensures store.Valid()
      ensures ok <==> Read(old(store.projections), TableKey) == AdmitExpects(seen)
      ensures store.Contents() == old(store.Contents()).(projections :=
                if ok then old(store.projections)[TableKey := TableValue(next)] else old(store.projections))
    {
      var expected := if seen.Some? && seen.value.rows != map[] then Some(TableValue(seen.value)) else None;
      var updates: seq<Update<Key, Value>> := [Update.Update(TableKey, TableValue(next), expected)];
      assert updates[..0] == [];
      ok := store.CompareAndSwapNamedProjections(updates);
    }

    // --- reserve --------------------------------------------------------------------------------------------

    // The limit comparisons of one policy.
    method WithinLimits(c: Check, used: Totals, reserved: Totals, estimate: Charge) returns (ok: bool)
      ensures ok <==> forall m :: Limit(c.policy, m).Some? ==> Get(used, m) + Get(reserved, m) + Amount(estimate, m) <= Limit(c.policy, m).value
    {
      ok := true;
      if c.policy.maxUsd.Some? && used.usd + reserved.usd + estimate.usd > c.policy.maxUsd.value {
        assert !(Get(used, Usd) + Get(reserved, Usd) + Amount(estimate, Usd) <= Limit(c.policy, Usd).value);
        return false;
      }
      if c.policy.maxTokens.Some? && used.tokens + reserved.tokens + estimate.tokens > c.policy.maxTokens.value {
        assert !(Get(used, Tokens) + Get(reserved, Tokens) + Amount(estimate, Tokens) <= Limit(c.policy, Tokens).value);
        return false;
      }
      if c.policy.maxRequests.Some? && used.requests + reserved.requests + 1 > c.policy.maxRequests.value {
        assert !(Get(used, Requests) + Get(reserved, Requests) + Amount(estimate, Requests) <= Limit(c.policy, Requests).value);
        return false;
      }
    }

    // A request is let in exactly if it already holds a row, or fits every policy of every lane it touches and
    // the table is not a left-over without rows; then its reservation is the one change.
    method ReserveAdmission(req: Request, now: Time) returns (ok: bool)
      requires store.Valid() && Typed(store.projections)
      modifies store
      ensures store.Valid()
      ensures ok <==> req.rid in Prune(RowsOf(old(store.projections))) || Reserves(config, old(store.projections), req, now)
      ensures store.Contents() == old(store.Contents()).(projections := AfterReserving(config, old(store.projections), req, now))
    {
      hide Checks, Prune, Held, Used;
      var attempts := config.reserveRetries;
      while true
        invariant store.Valid() && store.Contents() == old(store.Contents())
        decreases attempts
      {
        var table := ReservationTable();
        var rows := Prune(if table.Some? then table.value.rows else map[]);
        if req.rid in rows { return true; }
        var checks := Checks(config, req.caller);
        var lanes: seq<Addr> := [];
        for i := 0 to |checks|
          modifies {}
          invariant |lanes| == i && forall j :: 0 <= j < i ==> lanes[j] == checks[j].addr
          invariant forall j, m :: 0 <= j < i ==>
                      Fits(Get(Used(store.projections, checks[j].addr, now), m), RowsOf(store.projections), checks[j], m, req.estimate, now)
        {
          var used := QuotaUsed(checks[i].addr, now);
          var reserved := ReservedTotals(rows, checks[i].addr, now);
          var fits := WithinLimits(checks[i], used, reserved, req.estimate);
          if !fits {
            assert checks[i] in checks;
            return false;
          }
          lanes := lanes + [checks[i].addr];
        }
        assert store.projections == old(store.projections);
        forall c, m | c in checks
          ensures Fits(Get(Used(old(store.projections), c.addr, now), m), RowsOf(old(store.projections)), c, m, req.estimate, now)
        {
          var j :| 0 <= j < |checks| && checks[j] == c;
        }
        assert lanes == Addrs(checks);
        var swapped := SwapTable(Table(rows[req.rid := NewRow(req, now, config.ttl, lanes)], now), table);
        if swapped { return true; }
        if attempts == 0 { return false; }
        attempts := attempts - 1;
      }
    }

    // --- settle ---------------------------------------------------------------------------------------------

    // The lane part of the update list: one counter update per distinct lane, whatever the list repeats.
    method CounterUpdates(lanes: seq<Addr>, s: Protocol.Settlement) returns (updates: seq<Update<Key, Value>>)
      ensures var observed := ReadLanes(store.projections, lanes, s.now);
              Lists(updates, observed, CounterWrites(observed, s.actual))
    {
      hide Bucket, Lists, ReadLanes;
      assert lanes[..0] == [];
      EmptyLists(store.projections, s.now, s.actual);
      updates := [];
      var seen: set<Addr> := {};
      for i := 0 to |lanes|
        invariant seen == set a | a in lanes[..i]
        invariant var observed := ReadLanes(store.projections, lanes[..i], s.now);
                  Lists(updates, observed, CounterWrites(observed, s.actual))
      {
        var a := lanes[i];
        assert lanes[..i + 1] == lanes[..i] + [a];
        if a in seen {
          LaneRepeated(store.projections, lanes[..i], a, s.now);
          continue;
        }
        seen := seen + {a};
        var key := CounterKey(a, Bucket(s.now, a.period));
        var current := store.GetNamedProjection(key);
        var previous := if current.Some? && current.value.TotalsValue? then current.value.totals else ZERO;
        var next := Totals(previous.usd + s.actual.usd, previous.tokens + s.actual.tokens, previous.requests + 1);
        var update := Update.Update(key, TotalsValue(next), current);
        LaneAdded(store.projections, lanes[..i], a, s.now, s.actual, updates, update);
        updates := updates + [update];
      }
      assert lanes[..|lanes|] == lanes;
    }

    // The whole list: counters, the reservation it closes, the marker.
    method SettleUpdates(table: Option<Table>, s: Protocol.Settlement) returns (updates: seq<Update<Key, Value>>)
      ensures var observed := ReadLanes(store.projections, LanesToDebit(config, table, s), s.now);
              Lists(updates, SettleExpects(table, s, observed), SettleWrites(table, s, observed))
    {
      hide Bucket, LanesToDebit, Lists, SettleExpects, SettleWrites;
      var lanes := LanesToDebit(config, table, s);
      updates := CounterUpdates(lanes, s);
      ghost var observed := ReadLanes(store.projections, lanes, s.now);
      ReadLanesAre(store.projections, lanes, s.now);
      hide ReadLanes, Matches;
      if table.Some? && s.rid in table.value.rows {
        TableListed(table, s, observed, updates);
        var row := table.value.rows[s.rid].(state := Settled, actualUsd := Some(s.actual.usd),
                                            actualTokens := Some(s.actual.tokens), settledAt := Some(s.now));
        var next := Table(table.value.rows[s.rid := row], s.now);
        updates := updates + [Update.Update(TableKey, TableValue(next), Some(TableValue(table.value)))];
      } else {
        assert observed + TableExpects(table, s) == observed;
        assert CounterWrites(observed, s.actual) + TableWrites(table, s) == CounterWrites(observed, s.actual);
      }
      MarkerListed(table, s, observed, updates);
      var marker := Marker(s.estimate, s.actual, s.now, set a | a in lanes);
      updates := updates + [Update.Update(MarkerKey(s.rid), MarkerValue(marker), None)];
    }

    // Whether the ledger holds an event of the request.
    method HasLedgerEvent(rid: Rid) returns (found: bool)
      ensures found <==> UsageLedger.Scan(store.nodes, rid)
    {
      var todo := store.nodes.Keys;
      while todo != {}
        invariant todo <= store.nodes.Keys
        invariant forall id :: id in store.nodes && id !in todo ==>
                    !(store.nodes[id].kind == "usage_ledger_event" && store.nodes[id].payload.Usage?
                      && store.nodes[id].payload.event.requestId == rid)
        decreases |todo|
      {
        var id :| id in todo;
        var node := store.nodes[id];
        if node.kind == "usage_ledger_event" && node.payload.Usage? && node.payload.event.requestId == rid { return true; }
        todo := todo - {id};
      }
      return false;
    }

    // Alone on the store a settlement always succeeds. An unsettled request is debited, closed and marked in the
    // one swap of the protocol, then booked in the ledger; a settled one is booked if it has no event yet.
    method SettleReservation(s: Protocol.Settlement) returns (ok: bool)
      requires store.Valid() && Typed(store.projections)
      modifies store
      ensures store.Valid() && ok
      ensures store.Contents() == AfterSettling(config, old(store.Contents()), s)
    {
      hide LanesToDebit, SettleExpects, SettleWrites, ReadLanes, GraphState.AppendUsage;
      var subject := LedgerSubject(s);
      ok := false;
      var attempts := config.settleRetries + 1;
      while !ok && attempts > 0
        invariant store.Valid()
        invariant !ok ==> attempts == config.settleRetries + 1 && store.Contents() == old(store.Contents())
        invariant ok ==> !Marked(old(store.projections), s.rid)
        invariant ok ==> store.Contents() == old(store.Contents()).(projections := SettledStore(config, old(store.projections), s))
        decreases attempts
      {
        var table := ReservationTable();
        var marker := store.GetNamedProjection(MarkerKey(s.rid));
        if marker.Some? && marker.value.MarkerValue? {
          var booked := HasLedgerEvent(s.rid);
          if !booked && subject != "" {
            var settled := marker.value.marker.actual;
            var _ := store.AppendUsageLedgerEvent(subject, GraphState.UsageEvent(s.rid, settled.usd, settled.tokens));
          }
          return true;
        }
        var updates := SettleUpdates(table, s);
        SettleMatches(config, store.projections, s);
        TwoLoopsAreOneStep(store.projections, updates);
        ok := store.CompareAndSwapNamedProjections(updates);
        attempts := attempts - 1;
      }
      if subject != "" {
        var _ := store.AppendUsageLedgerEvent(subject, GraphState.UsageEvent(s.rid, s.actual.usd, s.actual.tokens));
      }
    }

    // --- the other rewrites of the table ----------------------------------------------------------------------

    method UpdateReservation(rid: Rid, state: RowState, usd: Option<nat>, tokens: Option<nat>, now: Time)
      requires store.Valid() && Typed(store.projections)
      modifies store
      ensures store.Valid()
      ensures store.Contents() == old(store.Contents()).(projections := Edited(old(store.projections), Edit.Update(rid, state, usd, tokens), now))
    {
      var table := ReservationTable();
      if table.None? || rid !in table.value.rows { return; }
      var row := table.value.rows[rid].(state := state, updatedAt := Some(now));
      if usd.Some? { row := row.(actualUsd := usd); }
      if tokens.Some? { row := row.(actualTokens := tokens); }
      var rows := table.value.rows[rid := row];
      var _ := SwapTable(Table(rows, now), table);
    }

    // `_replace_reservation`: compare with the table read, a bounded number of times.
    method ReplaceReservation(next: Table, seen: Option<Table>) returns (ok: bool)
      requires store.Valid()
      modifies store
      ensures store.Valid()
      ensures ok <==> Read(old(store.projections), TableKey) == if seen.Some? then Some(TableValue(seen.value)) else None
      ensures store.Contents() == old(store.Contents()).(projections :=
                if ok then old(store.projections)[TableKey := TableValue(next)] else old(store.projections))
    {
      var expected := if seen.Some? then Some(TableValue(seen.value)) else None;
      var updates: seq<Update<Key, Value>> := [Update.Update(TableKey, TableValue(next), expected)];
      assert updates[..0] == [];
      assert AllMatch(store.projections, updates) <==> Read(store.projections, updates[0].key) == expected;
      ok := false;
      var attempts := config.sweepRetries + 1;
      while !ok && attempts > 0
        invariant store.Valid()
        invariant !ok ==> store.Contents() == old(store.Contents())
        invariant ok ==> AllMatch(old(store.projections), updates)
                         && store.Contents() == old(store.Contents()).(projections := old(store.projections)[TableKey := TableValue(next)])
        invariant attempts <= config.sweepRetries ==> ok || !AllMatch(old(store.projections), updates)
        decreases attempts
      {
        ok := store.CompareAndSwapNamedProjections(updates);
        attempts := attempts - 1;
      }
    }

    // `expire_stale_reservations` with nobody in between: the sweep, and a report of exactly what it changed.
    method ExpireStaleReservations(now: Time) returns (changed: Changed)
      requires store.Valid() && Typed(store.projections)
      modifies store
      ensures store.Valid()
      ensures store.Contents() == old(store.Contents()).(projections := Edited(old(store.projections), SweepStale(now), now))
      ensures changed.uncertain == CountUncertain(RowsOf(old(store.projections)), now)
      ensures changed.released == CountReleased(RowsOf(old(store.projections)), now)
    {
      hide SweepRow, CountUncertain, CountReleased;
      var table := ReservationTable();
      var rows := if table.Some? then table.value.rows else map[];
      CountsZeroExactly(rows, now);
      var swept;
      swept, changed := ClassifyStale(rows, now);
      if changed.uncertain > 0 || changed.released > 0 {
        var _ := ReplaceReservation(Table(swept, now), table);
      }
    }

    // `mark_reconciled`: only an uncertain request can be resolved; settling it goes through the one settlement
    // swap, so a request that was debited before is not debited again.
    method MarkReconciled(rid: Rid, resolution: Resolution, usd: Option<nat>, tokens: Option<nat>, now: Time) returns (ok: bool)
      requires store.Valid() && Typed(store.projections)
      modifies store
      ensures store.Valid()
      ensures ok <==> rid in RowsOf(old(store.projections)) && RowsOf(old(store.projections))[rid].state == Uncertain
      ensures !ok ==> store.Contents() == old(store.Contents())
      ensures ok && resolution != Settle ==>
                store.Contents() == old(store.Contents()).(projections :=
                  Edited(old(store.projections), Resolve(rid, resolution == Release, usd, tokens), now))
      ensures ok && resolution == Settle ==>
                var row := RowsOf(old(store.projections))[rid];
                var s := ReconcileSettlement(rid, row, usd, tokens, now);
                var settled := AfterSettling(config, old(store.Contents()), s);
                store.Contents() == settled.(projections := Edited(settled.projections, Confirm(rid, row, s.actual), now))
    {
      hide LanesToDebit, SettleExpects, SettleWrites, ReadLanes, GraphState.AppendUsage;
      var table := ReservationTable();
      if table.None? || rid !in table.value.rows || table.value.rows[rid].state != Uncertain { return false; }
      var row := table.value.rows[rid];
      if resolution == Settle {
        ok := SettleAndConfirm(rid, row, usd, tokens, now);
      } else {
        var value := row.(state := if resolution == Release then Released else Uncertain, reconciledAt := Some(now));
        if usd.Some? { value := value.(actualUsd := usd); }
        if tokens.Some? { value := value.(actualTokens := tokens); }
        ok := ReplaceReservation(Table(table.value.rows[rid := value], now), table);
      }
    }

    lemma SettledTable(g: Contents, s: Protocol.Settlement)
      requires Typed(g.projections) && TableOf(g.projections).Some?
      ensures TableOf(AfterSettling(config, g, s).projections).Some?
    {
      hide LanesToDebit, Bucket, Book;
      var table := TableOf(g.projections);
      ReadLanesAre(g.projections, LanesToDebit(config, table, s), s.now);
      BookKeepsProjections(g.(projections := SettledStore(config, g.projections, s)), s, s.actual);
      if Marked(g.projections, s.rid) { BookKeepsProjections(g, s, g.projections[MarkerKey(s.rid)].marker.actual); }
      hide ReadLanes;
    }

    method SettleAndConfirm(rid: Rid, row: Row, usd: Option<nat>, tokens: Option<nat>, now: Time) returns (ok: bool)
      requires store.Valid() && Typed(store.projections) && TableOf(store.projections).Some?
      modifies store
      ensures store.Valid() && ok
      ensures var s := ReconcileSettlement(rid, row, usd, tokens, now);
              var settled := AfterSettling(config, old(store.Contents()), s);
              store.Contents() == settled.(projections := Edited(settled.projections, Confirm(rid, row, s.actual), now))
    {
      hide AfterSettling;
      var s := ReconcileSettlement(rid, row, usd, tokens, now);
      SettledTable(store.Contents(), s);
      var _ := SettleReservation(s);
      var table := ReservationTable();
      var value := if table.Some? && rid in table.value.rows then table.value.rows[rid] else row;
      value := value.(state := Settled, reconciledAt := Some(now), actualUsd := Some(s.actual.usd), actualTokens := Some(s.actual.tokens));
      var rows := (if table.Some? then table.value.rows else map[])[rid := value];
      ok := ReplaceReservation(Table(rows, now), table);
    }
  }
}
