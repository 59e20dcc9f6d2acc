/** What settlement guarantees over every run of the protocol: counters are exactly the replay of the settlement
    markers, a request is debited at most once, the answer a call returns is the truth, and the ledger is
    repaired after a crash. */
module Settlement {
  import opened Prelude
  import opened FiniteSums
  import opened Calendar
  import opened Reservations
  import opened ProjectionSwap
  import opened Protocol
  import Charging

  // --- the three swaps that change the store ------------------------------------------------------------

  ghost predicate AdmitSwaps(cfg: Config, sh: Shared, p: Prog) {
    p.ReserveCheck? && p.done >= |Checks(cfg, p.req.caller)| && Read(sh.store, TableKey) == AdmitExpects(p.seen.table)
  }

  ghost predicate SettleSwaps(sh: Shared, p: Prog) {
    p.SettleCounters? && p.todo == [] && Matches(sh.store, SettleExpects(p.table, p.s, p.observed))
  }

  ghost predicate EditSwaps(sh: Shared, p: Prog) {
    p.EditSwap? && Read(sh.store, TableKey) == if p.expected.Some? then Some(TableValue(p.expected.value)) else None
  }

  // Every other action leaves the store alone.
  lemma StoreCases(cfg: Config, sh: Shared, hist: Snapshot, p: Prog, f: bool)
    ensures var o := Act(cfg, sh, hist, p, f);
            && (AdmitSwaps(cfg, sh, p) ==>
                  o == Outcome(sh.store[TableKey := TableValue(Admit(p.seen.table, p.req, p.started, cfg))], sh.ledger,
                               ReserveDone(p.req.rid, true), {p.req.rid}))
            && (SettleSwaps(sh, p) ==>
                  o.store == sh.store + SettleWrites(p.table, p.s, p.observed) && o.ledger == sh.ledger && o.admits == {})
            && (EditSwaps(sh, p) ==>
                  o == Outcome(sh.store[TableKey := TableValue(p.next)], sh.ledger, EditDone(true, p.edit.Confirm?), {}))
            && (!AdmitSwaps(cfg, sh, p) && !SettleSwaps(sh, p) && !EditSwaps(sh, p) ==> o.store == sh.store && o.admits == {})
  {
    hide Fits, Checks, SettleExpects, SettleWrites, Admit, EditRows, Prune;
  }

  // --- shapes --------------------------------------------------------------------------------------------

  ghost predicate Observed(s: Protocol.Settlement, observed: map<Key, Option<Value>>) {
    forall k :: k in observed ==> k.CounterKey? && k.bucket == Bucket(s.now, k.addr.period)
  }

  ghost predicate Shaped(p: Prog) { p.SettleCounters? ==> Observed(p.s, p.observed) }

  ghost predicate WellFormed(s: State) {
    Typed(s.sh.store) && forall c :: c in s.calls ==> Shaped(s.calls[c])
  }

  lemma ShapeKept(cfg: Config, sh: Shared, hist: Snapshot, p: Prog, f: bool)
    requires Shaped(p)
    ensures Shaped(Act(cfg, sh, hist, p, f).prog)
  {
    hide Fits, Checks, SettleExpects, SettleWrites, Admit, EditRows, Prune, Bucket, LanesToDebit;
  }

  lemma SettleWritesTyped(store: Store, table: Option<Table>, s: Protocol.Settlement, observed: map<Key, Option<Value>>)
    requires Typed(store) && Observed(s, observed)
    ensures Typed(store + SettleWrites(table, s, observed))
  {
    hide Bucket;
  }

  lemma WellFormedStep(cfg: Config, s: State, step: Step)
    requires WellFormed(s)
    ensures WellFormed(Next(cfg, s, step))
  {
    hide Rise, Load;
    if step.Run? && step.cid in s.calls {
      var p := s.calls[step.cid];
      hide Act;
      StoreCases(cfg, s.sh, History(s), p, step.appendFails);
      ShapeKept(cfg, s.sh, History(s), p, step.appendFails);
      if SettleSwaps(s.sh, p) { SettleWritesTyped(s.sh.store, p.table, p.s, p.observed); }
    }
  }

  // --- counters are a replay of the markers ----------------------------------------------------------------

  // What one settlement marker contributes to a lane's counter in one bucket.
  ghost function Share(store: Store, rid: Rid, a: Addr, bucket: nat, m: Metric): nat {
    if MarkerKey(rid) in store && store[MarkerKey(rid)].MarkerValue? then
      var mark := store[MarkerKey(rid)].marker;
      if a in mark.lanes && Bucket(mark.settledAt, a.period) == bucket then Amount(mark.actual, m) else 0
    else 0
  }

  ghost function Replayed(store: Store, a: Addr, bucket: nat, m: Metric): int {
    Sum(MarkedIds(store), rid => Share(store, rid, a, bucket, m))
  }

  ghost predicate CountersAreReplay(store: Store) {
    forall a, bucket, m :: Get(CounterAt(store, a, bucket), m) == Replayed(store, a, bucket, m)
  }

  lemma ReplayedAgrees(store: Store, store': Store, a: Addr, bucket: nat, m: Metric)
    requires forall rid :: Read(store, MarkerKey(rid)) == Read(store', MarkerKey(rid))
    ensures Replayed(store, a, bucket, m) == Replayed(store', a, bucket, m)
  {
    hide Bucket;
    forall rid ensures Share(store, rid, a, bucket, m) == Share(store', rid, a, bucket, m)
      ensures MarkerKey(rid) in store <==> MarkerKey(rid) in store'
    {
      assert Read(store, MarkerKey(rid)) == Read(store', MarkerKey(rid));
    }
    assert MarkedIds(store) == MarkedIds(store');
    SumAgrees(MarkedIds(store), rid => Share(store, rid, a, bucket, m), rid => Share(store', rid, a, bucket, m));
  }

  // A change that touches neither markers nor counters keeps the replay.
  lemma ReplayFrame(store: Store, store': Store)
    requires CountersAreReplay(store)
    requires forall k :: k != TableKey ==> Read(store, k) == Read(store', k)
    ensures CountersAreReplay(store')
  {
    forall a, bucket, m ensures Get(CounterAt(store', a, bucket), m) == Replayed(store', a, bucket, m) {
      ReplayedAgrees(store, store', a, bucket, m);
      assert Read(store, CounterKey(a, bucket)) == Read(store', CounterKey(a, bucket));
      assert Get(CounterAt(store, a, bucket), m) == Replayed(store, a, bucket, m);
    }
  }

  // One settlement adds its amounts to each of its lanes, in the bucket of its own timestamp, and nowhere else.
  lemma SettleCounters(store: Store, table: Option<Table>, s: Protocol.Settlement, observed: map<Key, Option<Value>>, a: Addr, bucket: nat)
    requires Observed(s, observed) && Matches(store, SettleExpects(table, s, observed))
    ensures var store' := store + SettleWrites(table, s, observed);
            CounterAt(store', a, bucket)
            == if a in DebitedLanes(observed) && bucket == Bucket(s.now, a.period) then Plus(CounterAt(store, a, bucket), s.actual)
               else CounterAt(store, a, bucket)
  {
    hide Bucket;
    var k := CounterKey(a, bucket);
    var expects := SettleExpects(table, s, observed);
    assert k in observed <==> a in DebitedLanes(observed) && bucket == Bucket(s.now, a.period);
    if k in observed {
      assert k in expects && expects[k] == observed[k];
      assert Read(store, k) == observed[k];
    }
  }

  lemma SettleMarks(store: Store, table: Option<Table>, s: Protocol.Settlement, observed: map<Key, Option<Value>>)
    requires Matches(store, SettleExpects(table, s, observed)) && Observed(s, observed)
    ensures var store' := store + SettleWrites(table, s, observed);
            && !Marked(store, s.rid)
            && store'[MarkerKey(s.rid)] == MarkerValue(MarkerFor(s, DebitedLanes(observed)))
            && (forall rid :: rid != s.rid ==> Read(store', MarkerKey(rid)) == Read(store, MarkerKey(rid)))
            && MarkedIds(store') == MarkedIds(store) + {s.rid}
  {
    hide Bucket;
    assert MarkerKey(s.rid) in SettleExpects(table, s, observed);
    var store' := store + SettleWrites(table, s, observed);
    assert forall rid :: rid != s.rid ==> MarkerKey(rid) !in SettleWrites(table, s, observed);
    forall rid ensures rid in MarkedIds(store') <==> rid in MarkedIds(store) + {s.rid} {
      assert rid in MarkedIds(store') <==> MarkerKey(rid) in store';
      assert rid in MarkedIds(store) <==> MarkerKey(rid) in store;
    }
  }

  lemma ReplayedSettle(store: Store, table: Option<Table>, s: Protocol.Settlement, observed: map<Key, Option<Value>>,
                       a: Addr, bucket: nat, m: Metric)
    requires Observed(s, observed) && Matches(store, SettleExpects(table, s, observed))
    ensures var store' := store + SettleWrites(table, s, observed);
            Replayed(store', a, bucket, m) == Replayed(store, a, bucket, m) + Share(store', s.rid, a, bucket, m)
  {
    hide Bucket;
    var store' := store + SettleWrites(table, s, observed);
    SettleMarks(store, table, s, observed);
    hide SettleWrites, Matches, SettleExpects;
    forall rid | rid != s.rid ensures Share(store', rid, a, bucket, m) == Share(store, rid, a, bucket, m) {
      assert Read(store', MarkerKey(rid)) == Read(store, MarkerKey(rid));
    }
    assert s.rid !in MarkedIds(store);
    SumInsert(MarkedIds(store), rid => Share(store', rid, a, bucket, m), s.rid);
    SumAgrees(MarkedIds(store), rid => Share(store', rid, a, bucket, m), rid => Share(store, rid, a, bucket, m));
  }

  lemma ReplaySettle(store: Store, table: Option<Table>, s: Protocol.Settlement, observed: map<Key, Option<Value>>)
    requires CountersAreReplay(store) && Observed(s, observed) && Matches(store, SettleExpects(table, s, observed))
    ensures CountersAreReplay(store + SettleWrites(table, s, observed))
  {
    hide Bucket;
    var store' := store + SettleWrites(table, s, observed);
    SettleMarks(store, table, s, observed);
    hide SettleWrites, Matches, SettleExpects, Replayed, CounterAt;
    forall a, bucket, m ensures Get(CounterAt(store', a, bucket), m) == Replayed(store', a, bucket, m) {
      SettleCounters(store, table, s, observed, a, bucket);
      ReplayedSettle(store, table, s, observed, a, bucket, m);
      assert Get(CounterAt(store, a, bucket), m) == Replayed(store, a, bucket, m);
    }
  }

  lemma ReplayStep(cfg: Config, s: State, step: Step)
    requires WellFormed(s) && CountersAreReplay(s.sh.store)
    ensures CountersAreReplay(Next(cfg, s, step).sh.store)
  {
    hide Rise, CountersAreReplay;
    if step.Run? && step.cid in s.calls {
      var p := s.calls[step.cid];
      hide Act, SettleWrites, Matches, SettleExpects, Admit;
      StoreCases(cfg, s.sh, History(s), p, step.appendFails);
      if SettleSwaps(s.sh, p) { ReplaySettle(s.sh.store, p.table, p.s, p.observed); }
      else { ReplayFrame(s.sh.store, Next(cfg, s, step).sh.store); }
    }
  }

  // In every reachable state each counter is the sum over exactly the markers that list its lane and were
  // settled in its bucket: the counters could be thrown away and rebuilt.
  lemma {:induction false} CountersRebuildable(cfg: Config, clock: Time, steps: seq<Step>)
    ensures WellFormed(Exec(cfg, clock, steps))
    ensures CountersAreReplay(Exec(cfg, clock, steps).sh.store)
  {
    if steps == [] {
      assert MarkedIds(map[]) == {};
    } else {
      var n := |steps| - 1;
      CountersRebuildable(cfg, clock, steps[..n]);
      hide CountersAreReplay, Next;
      WellFormedStep(cfg, Exec(cfg, clock, steps[..n]), steps[n]);
      ReplayStep(cfg, Exec(cfg, clock, steps[..n]), steps[n]);
    }
  }

  // --- exactly once ---------------------------------------------------------------------------------------

  // The step is the swap that debits a request.
  ghost predicate Debits(s: State, step: Step, rid: Rid) {
    step.Run? && step.cid in s.calls && SettleSwaps(s.sh, s.calls[step.cid]) && s.calls[step.cid].s.rid == rid
  }

  ghost function DebitCount(cfg: Config, clock: Time, steps: seq<Step>, rid: Rid): nat {
    if steps == [] then 0
    else
      var n := |steps| - 1;
      DebitCount(cfg, clock, steps[..n], rid) + if Debits(Exec(cfg, clock, steps[..n]), steps[n], rid) then 1 else 0
  }

  lemma MarkerStep(cfg: Config, s: State, step: Step, rid: Rid)
    requires WellFormed(s)
    ensures Debits(s, step, rid) ==> !Marked(s.sh.store, rid) && Marked(Next(cfg, s, step).sh.store, rid)
    ensures !Debits(s, step, rid) ==> Read(Next(cfg, s, step).sh.store, MarkerKey(rid)) == Read(s.sh.store, MarkerKey(rid))
  {
    hide Rise;
    if step.Run? && step.cid in s.calls {
      var p := s.calls[step.cid];
      hide Act, SettleWrites, Matches, SettleExpects, Admit;
      StoreCases(cfg, s.sh, History(s), p, step.appendFails);
      if SettleSwaps(s.sh, p) { SettleMarks(s.sh.store, p.table, p.s, p.observed); }
    }
  }

  // A request is debited at most once in any run, and it is debited exactly if its marker stands.
  lemma {:induction false} DebitedAtMostOnce(cfg: Config, clock: Time, steps: seq<Step>, rid: Rid)
    ensures DebitCount(cfg, clock, steps, rid) == if Marked(Exec(cfg, clock, steps).sh.store, rid) then 1 else 0
  {
    if steps != [] {
      var n := |steps| - 1;
      DebitedAtMostOnce(cfg, clock, steps[..n], rid);
      CountersRebuildable(cfg, clock, steps[..n]);
      hide Next, WellFormed, CountersAreReplay, Debits;
      MarkerStep(cfg, Exec(cfg, clock, steps[..n]), steps[n], rid);
    }
  }

  // Once written a marker is never changed or removed.
  lemma {:induction false} MarkersArePermanent(cfg: Config, clock: Time, steps: seq<Step>, earlier: nat, rid: Rid)
    requires earlier <= |steps| && Marked(Exec(cfg, clock, steps[..earlier]).sh.store, rid)
    ensures Read(Exec(cfg, clock, steps).sh.store, MarkerKey(rid)) == Read(Exec(cfg, clock, steps[..earlier]).sh.store, MarkerKey(rid))
    decreases |steps|
  {
    hide Next, WellFormed, CountersAreReplay, Debits;
    var n := |steps| - 1;
    if earlier < |steps| {
      assert steps[..n][..earlier] == steps[..earlier];
      MarkersArePermanent(cfg, clock, steps[..n], earlier, rid);
      CountersRebuildable(cfg, clock, steps[..n]);
      MarkerStep(cfg, Exec(cfg, clock, steps[..n]), steps[n], rid);
    } else {
      assert steps[..earlier] == steps;
    }
  }

  // --- every lane, once each ------------------------------------------------------------------------------

  // The lanes still to read and those read so far are the lanes of the call, whatever duplicates the list has.
  ghost predicate LanesCovered(cfg: Config, p: Prog) {
    p.SettleCounters? ==>
      (set a | a in p.todo) + DebitedLanes(p.observed) == set a | a in LanesToDebit(cfg, p.table, p.s)
  }

  lemma OneMoreLane(s: Protocol.Settlement, todo: seq<Addr>, observed: map<Key, Option<Value>>, v: Option<Value>)
    requires Observed(s, observed) && todo != []
    ensures var k := CounterKey(todo[0], Bucket(s.now, todo[0].period));
            var observed' := if k in observed then observed else observed[k := v];
            (set a | a in todo[1..]) + DebitedLanes(observed') == (set a | a in todo) + DebitedLanes(observed)
  {
    hide Bucket;
    var k := CounterKey(todo[0], Bucket(s.now, todo[0].period));
    var observed' := if k in observed then observed else observed[k := v];
    assert (set a | a in todo) == {todo[0]} + set a | a in todo[1..];
    assert DebitedLanes(observed') == DebitedLanes(observed) + {todo[0]};
  }

  lemma ActSettleCovered(cfg: Config, sh: Shared, p: Prog, f: bool)
    requires p.SettleRead? || p.SettleMarker? || p.SettleCounters? || p.SettleLedger? || p.RepairScan? || p.RepairAppend?
    requires LanesCovered(cfg, p) && Shaped(p)
    ensures LanesCovered(cfg, ActSettle(cfg, sh, p, f).prog)
  {
    hide SettleExpects, SettleWrites, Matches, LanesToDebit, Bucket;
    var p' := ActSettle(cfg, sh, p, f).prog;
    if p.SettleMarker? && p'.SettleCounters? {
      assert DebitedLanes(map[]) == {};
    } else if p.SettleCounters? && p.todo != [] {
      var k := CounterKey(p.todo[0], Bucket(p.s.now, p.todo[0].period));
      OneMoreLane(p.s, p.todo, p.observed, Read(sh.store, k));
    }
  }

  lemma LanesCoveredStep(cfg: Config, sh: Shared, hist: Snapshot, p: Prog, f: bool)
    requires LanesCovered(cfg, p) && Shaped(p)
    ensures LanesCovered(cfg, Act(cfg, sh, hist, p, f).prog)
  {
    hide Fits, Checks, Admit, EditRows, Prune, ActSettle, LanesToDebit, DebitedLanes;
    if p.SettleRead? || p.SettleMarker? || p.SettleCounters? || p.SettleLedger? || p.RepairScan? || p.RepairAppend? {
      ActSettleCovered(cfg, sh, p, f);
    }
  }

  ghost predicate AllLanesCovered(cfg: Config, s: State) { forall c :: c in s.calls ==> LanesCovered(cfg, s.calls[c]) }

  lemma LanesStep(cfg: Config, s: State, step: Step)
    requires WellFormed(s) && AllLanesCovered(cfg, s)
    ensures AllLanesCovered(cfg, Next(cfg, s, step))
  {
    hide Rise;
    if step.Run? && step.cid in s.calls {
      hide Act, LanesCovered;
      LanesCoveredStep(cfg, s.sh, History(s), s.calls[step.cid], step.appendFails);
    }
  }

  lemma {:induction false} LanesAlwaysCovered(cfg: Config, clock: Time, steps: seq<Step>)
    ensures AllLanesCovered(cfg, Exec(cfg, clock, steps))
  {
    if steps != [] {
      var n := |steps| - 1;
      LanesAlwaysCovered(cfg, clock, steps[..n]);
      CountersRebuildable(cfg, clock, steps[..n]);
      hide CountersAreReplay, Next, AllLanesCovered, WellFormed;
      LanesStep(cfg, Exec(cfg, clock, steps[..n]), steps[n]);
    }
  }

  lemma SettleClosesRow(store: Store, table: Option<Table>, s: Protocol.Settlement, observed: map<Key, Option<Value>>)
    requires Observed(s, observed) && Matches(store, SettleExpects(table, s, observed)) && HasReservation(table, s)
    ensures TableOf(store) == table
    ensures RowsOf(store + SettleWrites(table, s, observed)) == RowsOf(store)[s.rid := SettledRow(RowsOf(store)[s.rid], s)]
  {
    hide Bucket;
    var expects := SettleExpects(table, s, observed);
    assert TableKey in expects && expects[TableKey] == Some(TableValue(table.value));
    assert Read(store, TableKey) == expects[TableKey];
  }

  // The step that debits a request adds the actual amounts, and one request, once to each lane of the reservation the
  // call found (or, when it found none or one without lanes, to each lane the caller is charged in), in the bucket of the
  // call's timestamp, whatever duplicates the list holds; it touches no other counter, and it closes the reservation it
  // found and leaves the rest of the table alone.
  lemma DebitIsOncePerLane(cfg: Config, clock: Time, steps: seq<Step>, step: Step, rid: Rid)
    requires Debits(Exec(cfg, clock, steps), step, rid)
    ensures var before := Exec(cfg, clock, steps);
            var after := Next(cfg, before, step);
            var p := before.calls[step.cid];
            && (forall a, bucket ::
                  var was := CounterAt(before.sh.store, a, bucket);
                  CounterAt(after.sh.store, a, bucket) ==
                  if Charging.Debited(cfg, p.table, p.s, a) && bucket == Bucket(p.s.now, a.period)
                  then Totals(was.usd + p.s.actual.usd, was.tokens + p.s.actual.tokens, was.requests + 1) else was)
            && (HasReservation(p.table, p.s) ==>
                  && TableOf(before.sh.store) == p.table
                  && RowsOf(after.sh.store) == RowsOf(before.sh.store)[rid := Closed(RowsOf(before.sh.store)[rid], p.s)])
  {
    hide CountersAreReplay, Exec, CounterAt, Next, SettleExpects, SettleWrites, Matches, LanesCovered, Bucket, RowsOf, TableOf, Closed, Charging.Debited;
    var s := Exec(cfg, clock, steps);
    var p := s.calls[step.cid];
    CountersRebuildable(cfg, clock, steps);
    LanesAlwaysCovered(cfg, clock, steps);
    assert LanesCovered(cfg, p) && Shaped(p);
    hide WellFormed, Shaped, Debits, AllLanesCovered;
    DebitingStep(cfg, s, step, rid);
    forall a, bucket { DebitOf(cfg, s.sh.store, p, a, bucket); }
    if HasReservation(p.table, p.s) { DebitCloses(s.sh.store, p); }
  }

  lemma DebitingStep(cfg: Config, s: State, step: Step, rid: Rid)
    requires Debits(s, step, rid)
    ensures var p := s.calls[step.cid];
            p.s.rid == rid && SettleSwaps(s.sh, p) && Next(cfg, s, step).sh.store == s.sh.store + SettleWrites(p.table, p.s, p.observed)
  {
    hide Rise;
    StoreCases(cfg, s.sh, History(s), s.calls[step.cid], step.appendFails);
    hide Act, SettleExpects, SettleWrites, Matches;
  }

  lemma DebitCloses(store: Store, p: Prog)
    requires SettleSwaps(Shared(0, store, []), p) && Shaped(p) && HasReservation(p.table, p.s)
    ensures TableOf(store) == p.table && p.s.rid in RowsOf(store)
    ensures RowsOf(store + SettleWrites(p.table, p.s, p.observed)) == RowsOf(store)[p.s.rid := Closed(RowsOf(store)[p.s.rid], p.s)]
  {
    SettleClosesRow(store, p.table, p.s, p.observed);
    hide SettleExpects, SettleWrites, Matches;
  }

  lemma DebitOf(cfg: Config, store: Store, p: Prog, a: Addr, bucket: nat)
    requires SettleSwaps(Shared(0, store, []), p) && LanesCovered(cfg, p) && Shaped(p)
    ensures var was := CounterAt(store, a, bucket);
            CounterAt(store + SettleWrites(p.table, p.s, p.observed), a, bucket)
            == if Charging.Debited(cfg, p.table, p.s, a) && bucket == Bucket(p.s.now, a.period)
               then Totals(was.usd + p.s.actual.usd, was.tokens + p.s.actual.tokens, was.requests + 1) else was
  {
    hide Bucket, CounterAt, SettleWrites, SettleExpects, Matches, Charging.Debited, LanesToDebit, DebitedLanes;
    assert a in LanesToDebit(cfg, p.table, p.s) <==> a in DebitedLanes(p.observed);
    Charging.DebitsAre(cfg, p.table, p.s, a);
    SettleCounters(store, p.table, p.s, p.observed, a, bucket);
  }

  // A settled row: the actual figures and the time of the settlement, and everything else as it was.
  function Closed(r: Row, s: Protocol.Settlement): Row {
    Row(RowState.Settled, r.createdAt, r.expiresAt, r.estimate, r.lanes, r.principal, r.key, Some(s.actual.usd), Some(s.actual.tokens),
        Some(s.now), r.updatedAt, r.reconciledAt)
  }

  // --- what a call's answer says ----------------------------------------------------------------------------

  ghost predicate NotYetWriting(p: Prog) {
    match p
    case ReserveRead(_, _, _) => true
    case ReserveCheck(_, _, _, _, _, _) => true
    case SettleRead(_, _, _) => true
    case SettleMarker(_, _, _, _) => true
    case SettleCounters(_, _, _, _, _, _) => true
    case ReconcileRead(_, _, _) => true
    case EditRead(e) => !e.Confirm?
    case EditSwap(e, _, _, _) => !e.Confirm?
    case ReserveDone(_, ok) => !ok
    case SettleDone(_, ok, _) => !ok
    case EditDone(ok, afterSettling) => !ok && !afterSettling
    case _ => false
  }

  // The request a call knows to be settled.
  ghost function KnownSettled(p: Prog): Option<Rid> {
    match p
    case SettleLedger(s, _) => Some(s.rid)
    case RepairScan(s, _, _) => Some(s.rid)
    case RepairAppend(s, _, _) => Some(s.rid)
    case SettleDone(rid, ok, _) => if ok then Some(rid) else None
    case _ => None
  }

  ghost predicate Truthful(s: State) {
    && s.wrote <= s.calls.Keys
    && (forall c :: c in s.calls && NotYetWriting(s.calls[c]) ==> c !in s.wrote)
    && (forall c :: c in s.calls && KnownSettled(s.calls[c]).Some? ==> Marked(s.sh.store, KnownSettled(s.calls[c]).value))
  }

  ghost predicate TruthfulOutcome(sh: Shared, p: Prog, o: Outcome) {
    && (NotYetWriting(o.prog) ==> NotYetWriting(p) && o.store == sh.store && o.ledger == sh.ledger)
    && (KnownSettled(o.prog).Some? ==> Marked(o.store, KnownSettled(o.prog).value))
  }

  lemma ActSettleTruthful(cfg: Config, sh: Shared, p: Prog, f: bool)
    requires KnownSettled(p).Some? ==> Marked(sh.store, KnownSettled(p).value)
    requires p.SettleRead? || p.SettleMarker? || p.SettleCounters? || p.SettleLedger? || p.RepairScan? || p.RepairAppend?
    ensures TruthfulOutcome(sh, p, ActSettle(cfg, sh, p, f))
  {
    hide LanesToDebit, SettleExpects, Matches, CounterWrites, TableWrites, Bucket;
  }

  lemma ActTruthful(cfg: Config, sh: Shared, hist: Snapshot, p: Prog, f: bool)
    requires KnownSettled(p).Some? ==> Marked(sh.store, KnownSettled(p).value)
    ensures TruthfulOutcome(sh, p, Act(cfg, sh, hist, p, f))
  {
    hide Fits, Checks, Admit, EditRows, Prune, RowsOf, ActSettle;
    if p.SettleRead? || p.SettleMarker? || p.SettleCounters? || p.SettleLedger? || p.RepairScan? || p.RepairAppend? {
      ActSettleTruthful(cfg, sh, p, f);
    }
  }

  lemma TruthfulStep(cfg: Config, s: State, step: Step)
    requires WellFormed(s) && Truthful(s)
    ensures Truthful(Next(cfg, s, step))
  {
    hide Rise, WellFormed;
    if step.Run? && step.cid in s.calls {
      ActTruthful(cfg, s.sh, History(s), s.calls[step.cid], step.appendFails);
      hide Act;
      var s' := Next(cfg, s, step);
      forall rid | Marked(s.sh.store, rid) ensures Marked(s'.sh.store, rid) {
        MarkerStep(cfg, s, step, rid);
      }
    }
  }

  // A call that answers False, whatever happened around it, changed neither the store nor the ledger; a
  // settlement that answers True leaves its request settled, so all its lanes are debited.
  lemma {:induction false} AnswersAreTrue(cfg: Config, clock: Time, steps: seq<Step>)
    ensures Truthful(Exec(cfg, clock, steps))
  {
    if steps != [] {
      var n := |steps| - 1;
      AnswersAreTrue(cfg, clock, steps[..n]);
      CountersRebuildable(cfg, clock, steps[..n]);
      hide Next, WellFormed, CountersAreReplay, Truthful;
      TruthfulStep(cfg, Exec(cfg, clock, steps[..n]), steps[n]);
    }
  }
}
