/** The admission bound. For every lane with a quota policy: what is used in the current period plus what live
    reservations hold back stays within the policy's limit, raised only by what steps other than admissions
    added to the lane. Runs in which settlements and updates touch live reservations add nothing. */
module Admission {
  import opened Prelude
  import opened Calendar
  import opened Reservations
  import opened ProjectionSwap
  import opened Protocol
  import Settlement
  import opened Charging

  // --- what is known about tables, snapshots and pending writes --------------------------------------------

  function SeenRows(t: Option<Table>): map<Rid, Row> { if t.Some? then t.value.rows else map[] }

  // Rows belong to admitted requests; a settlement timestamp on a row means the request is settled.
  ghost predicate RowsKnown(rows: map<Rid, Row>, admitted: set<Rid>, marked: set<Rid>) {
    rows.Keys <= admitted && forall rid :: rid in rows && rows[rid].settledAt.Some? ==> rid in marked
  }

  // An edit drops no row and moves no settlement timestamp.
  ghost predicate Extends(rows: map<Rid, Row>, next: map<Rid, Row>) {
    rows.Keys <= next.Keys && forall rid :: rid in rows ==> next[rid].settledAt == rows[rid].settledAt
  }

  ghost predicate RowKnown(rid: Rid, row: Row, admitted: set<Rid>, marked: set<Rid>) {
    rid in admitted && (row.settledAt.Some? ==> rid in marked)
  }

  ghost predicate SettleKnown(s: Protocol.Settlement, confirm: Option<Row>, admitted: set<Rid>, marked: set<Rid>, clock: Time) {
    s.now <= clock && (confirm.Some? ==> RowKnown(s.rid, confirm.value, admitted, marked))
  }

  ghost predicate ProgKnown(p: Prog, admitted: set<Rid>, marked: set<Rid>, clock: Time) {
    match p
    case ReserveCheck(_, _, _, seen, _, _) =>
      RowsKnown(SeenRows(seen.table), seen.admitted, seen.marked) && seen.admitted <= admitted && seen.marked <= marked
    case SettleRead(s, _, confirm) => SettleKnown(s, confirm, admitted, marked, clock)
    case SettleMarker(s, _, confirm, _) => SettleKnown(s, confirm, admitted, marked, clock)
    case SettleCounters(s, _, confirm, _, _, _) => SettleKnown(s, confirm, admitted, marked, clock)
    case SettleLedger(s, confirm) => SettleKnown(s, confirm, admitted, marked, clock)
    case RepairScan(s, confirm, _) => SettleKnown(s, confirm, admitted, marked, clock)
    case RepairAppend(s, confirm, _) => SettleKnown(s, confirm, admitted, marked, clock)
    case EditRead(e) => e.Confirm? ==> RowKnown(e.rid, e.known, admitted, marked)
    case EditSwap(_, expected, next, _) => RowsKnown(next.rows, admitted, marked) && Extends(SeenRows(expected), next.rows)
    case _ => true
  }

  ghost predicate Known(s: State) {
    && RowsKnown(RowsOf(s.sh.store), s.admitted, MarkedIds(s.sh.store))
    && (forall c :: c in s.calls ==> ProgKnown(s.calls[c], s.admitted, MarkedIds(s.sh.store), s.sh.clock))
  }

  lemma KnownGrows(p: Prog, admitted: set<Rid>, marked: set<Rid>, clock: Time, admitted': set<Rid>, marked': set<Rid>, clock': Time)
    requires ProgKnown(p, admitted, marked, clock) && admitted <= admitted' && marked <= marked' && clock <= clock'
    ensures ProgKnown(p, admitted', marked', clock')
  {
  }

  lemma EditRowsExtend(rows: map<Rid, Row>, e: Edit, now: Time, admitted: set<Rid>, marked: set<Rid>)
    requires RowsKnown(rows, admitted, marked) && (e.Confirm? ==> RowKnown(e.rid, e.known, admitted, marked))
    requires EditRows(rows, e, now).Some?
    ensures RowsKnown(EditRows(rows, e, now).value, admitted, marked) && Extends(rows, EditRows(rows, e, now).value)
  {
  }

  lemma ActReserveKnown(cfg: Config, sh: Shared, hist: Snapshot, p: Prog)
    requires p.ReserveRead? || p.ReserveCheck?
    requires RowsKnown(RowsOf(sh.store), hist.admitted, hist.marked) && ProgKnown(p, hist.admitted, hist.marked, sh.clock)
    ensures ProgKnown(ActReserve(cfg, sh, hist, p).prog, hist.admitted, hist.marked, sh.clock)
  {
    hide Fits, Checks, Admit, Prune, Used, RowsKnown;
    if p.ReserveRead? { assert SeenRows(TableOf(sh.store)) == RowsOf(sh.store); }
  }

  lemma ActSettleKnown(cfg: Config, sh: Shared, hist: Snapshot, p: Prog, f: bool)
    requires p.SettleRead? || p.SettleMarker? || p.SettleCounters? || p.SettleLedger? || p.RepairScan? || p.RepairAppend?
    requires ProgKnown(p, hist.admitted, hist.marked, sh.clock)
    ensures ProgKnown(ActSettle(cfg, sh, p, f).prog, hist.admitted, hist.marked, sh.clock)
  {
    hide LanesToDebit, Matches, SettleExpects, SettleWrites, Bucket, TableOf, RowsKnown;
  }

  lemma ActEditKnown(cfg: Config, sh: Shared, hist: Snapshot, p: Prog)
    requires p.ReconcileRead? || p.EditRead? || p.EditSwap?
    requires RowsKnown(RowsOf(sh.store), hist.admitted, hist.marked) && ProgKnown(p, hist.admitted, hist.marked, sh.clock)
    ensures ProgKnown(ActEdit(cfg, sh, p).prog, hist.admitted, hist.marked, sh.clock)
  {
    if p.EditRead? {
      var e := p.edit;
      if EditRows(RowsOf(sh.store), e, sh.clock).Some? { EditRowsExtend(RowsOf(sh.store), e, sh.clock, hist.admitted, hist.marked); }
      hide EditRows;
    } else {
      hide EditRows;
    }
  }

  // The acting call's own knowledge carries over to its next program point.
  lemma ActKnown(cfg: Config, sh: Shared, hist: Snapshot, p: Prog, f: bool)
    requires RowsKnown(RowsOf(sh.store), hist.admitted, hist.marked) && ProgKnown(p, hist.admitted, hist.marked, sh.clock)
    ensures ProgKnown(Act(cfg, sh, hist, p, f).prog, hist.admitted, hist.marked, sh.clock)
  {
    hide ActReserve, ActSettle, ActEdit, RowsKnown, ProgKnown;
    if p.ReserveRead? || p.ReserveCheck? {
      ActReserveKnown(cfg, sh, hist, p);
    } else if p.ReconcileRead? || p.EditRead? || p.EditSwap? {
      ActEditKnown(cfg, sh, hist, p);
    } else if !(p.ReserveDone? || p.SettleDone? || p.EditDone? || p.Lost?) {
      ActSettleKnown(cfg, sh, hist, p, f);
    }
  }

  lemma TableOfWrite(store: Store, t: Table)
    ensures RowsOf(store[TableKey := TableValue(t)]) == t.rows
    ensures MarkedIds(store[TableKey := TableValue(t)]) == MarkedIds(store)
  {
    var store' := store[TableKey := TableValue(t)];
    forall rid ensures rid in MarkedIds(store') <==> rid in MarkedIds(store) {
      assert rid in MarkedIds(store') <==> MarkerKey(rid) in store';
      assert rid in MarkedIds(store) <==> MarkerKey(rid) in store;
    }
  }

  // What a settlement swap does to the table: close the row of its request, or leave the table alone.
  lemma SettleTable(store: Store, table: Option<Table>, s: Protocol.Settlement, observed: map<Key, Option<Value>>)
    requires Settlement.Observed(s, observed) && Matches(store, SettleExpects(table, s, observed))
    ensures var store' := store + SettleWrites(table, s, observed);
            if HasReservation(table, s) then
              s.rid in RowsOf(store) && RowsOf(store') == RowsOf(store)[s.rid := SettledRow(RowsOf(store)[s.rid], s)]
            else TableOf(store') == TableOf(store)
  {
    if HasReservation(table, s) {
      Settlement.SettleClosesRow(store, table, s, observed);
    } else {
      hide Bucket;
    }
  }

  lemma ExpectedRows(store: Store, expected: Option<Table>)
    requires Read(store, TableKey) == if expected.Some? then Some(TableValue(expected.value)) else None
    ensures RowsOf(store) == SeenRows(expected)
  {
  }

  // The rows after any action that is not an admission.
  lemma RowsAfter(cfg: Config, sh: Shared, hist: Snapshot, p: Prog, f: bool)
    requires RowsKnown(RowsOf(sh.store), hist.admitted, hist.marked) && ProgKnown(p, hist.admitted, hist.marked, sh.clock)
    requires hist.marked == MarkedIds(sh.store) && Settlement.Shaped(p) && !Settlement.AdmitSwaps(cfg, sh, p)
    ensures var store' := Act(cfg, sh, hist, p, f).store;
            && RowsKnown(RowsOf(store'), hist.admitted, MarkedIds(store'))
            && MarkedIds(sh.store) <= MarkedIds(store')
            && RowsOf(sh.store).Keys <= RowsOf(store').Keys
            && (forall rid :: rid in RowsOf(sh.store) && RowsOf(sh.store)[rid].settledAt.Some? ==> RowsOf(store')[rid].settledAt.Some?)
  {
    Settlement.StoreCases(cfg, sh, hist, p, f);
    hide Act, Admit, Checks, Bucket;
    if Settlement.SettleSwaps(sh, p) {
      SettleTable(sh.store, p.table, p.s, p.observed);
      Settlement.SettleMarks(sh.store, p.table, p.s, p.observed);
      hide SettleWrites, SettleExpects, Matches;
    } else if Settlement.EditSwaps(sh, p) {
      TableOfWrite(sh.store, p.next);
      ExpectedRows(sh.store, p.expected);
    }
  }

  // --- request ids -----------------------------------------------------------------------------------------

  ghost predicate Reserving(p: Prog) { p.ReserveRead? || p.ReserveCheck? }

  // A request that is still being reserved has not been admitted, and no other call is reserving it.
  ghost predicate FreshIds(s: State) {
    && s.admitted <= s.requested
    && (forall c :: c in s.calls && Reserving(s.calls[c]) ==> s.calls[c].req.rid in s.requested && s.calls[c].req.rid !in s.admitted)
    && (forall c, d :: c in s.calls && d in s.calls && c != d && Reserving(s.calls[c]) && Reserving(s.calls[d]) ==>
          s.calls[c].req.rid != s.calls[d].req.rid)
  }

  // The caller's side of it: no two reserve calls of a run carry the same request id.
  ghost predicate DistinctReserves(steps: seq<Step>) {
    forall i, j :: 0 <= i < j < |steps| && steps[i].Begin? && steps[j].Begin? && steps[i].op.ReserveOp? && steps[j].op.ReserveOp?
                   ==> steps[i].op.req.rid != steps[j].op.req.rid
  }

  ghost predicate FreshStep(s: State, step: Step) {
    step.Begin? && step.op.ReserveOp? ==> step.op.req.rid !in s.requested
  }

  lemma ActReserving(cfg: Config, sh: Shared, hist: Snapshot, p: Prog, f: bool)
    ensures var o := Act(cfg, sh, hist, p, f);
            && (Reserving(o.prog) ==> Reserving(p) && o.prog.req == p.req && o.admits == {})
            && (o.admits != {} ==> Reserving(p) && o.admits == {p.req.rid} && Settlement.AdmitSwaps(cfg, sh, p))
  {
    hide Fits, LanesToDebit, Admit, EditRows, Prune, RowsOf, Matches, SettleExpects, SettleWrites, Bucket;
  }

  lemma FreshIdsStep(cfg: Config, s: State, step: Step)
    requires FreshIds(s) && FreshStep(s, step)
    ensures FreshIds(Next(cfg, s, step))
  {
    hide Rise;
    if step.Run? && step.cid in s.calls {
      ActReserving(cfg, s.sh, History(s), s.calls[step.cid], step.appendFails);
      hide Act;
    }
  }

  lemma {:induction false} RequestedBySteps(cfg: Config, clock: Time, steps: seq<Step>, rid: Rid)
    requires rid in Exec(cfg, clock, steps).requested
    ensures exists i :: 0 <= i < |steps| && steps[i].Begin? && steps[i].op.ReserveOp? && steps[i].op.req.rid == rid
  {
    var n := |steps| - 1;
    if rid in Exec(cfg, clock, steps[..n]).requested {
      RequestedBySteps(cfg, clock, steps[..n], rid);
      var i :| 0 <= i < n && steps[..n][i].Begin? && steps[..n][i].op.ReserveOp? && steps[..n][i].op.req.rid == rid;
      assert steps[i].Begin? && steps[i].op.ReserveOp? && steps[i].op.req.rid == rid;
    } else {
      hide Act, Rise;
      assert steps[n].Begin? && steps[n].op.ReserveOp? && steps[n].op.req.rid == rid;
    }
  }

  // --- an admission ----------------------------------------------------------------------------------------

  lemma AdmitRows(cfg: Config, sh: Shared, p: Prog)
    requires Typed(sh.store) && Settlement.AdmitSwaps(cfg, sh, p)
    ensures RowsOf(sh.store) == SeenRows(p.seen.table)
    ensures var store' := sh.store[TableKey := TableValue(Admit(p.seen.table, p.req, p.started, cfg))];
            && RowsOf(store') == Prune(RowsOf(sh.store))[p.req.rid := NewRow(p.req, p.started, cfg.ttl, Addrs(Checks(cfg, p.req.caller)))]
            && MarkedIds(store') == MarkedIds(sh.store)
  {
    hide Checks, Prune;
    if p.seen.table.Some? && p.seen.table.value.rows != map[] {
      ExpectedRows(sh.store, p.seen.table);
    }
    TableOfWrite(sh.store, Admit(p.seen.table, p.req, p.started, cfg));
  }

  lemma AdmitKnown(rows: map<Rid, Row>, rid: Rid, row: Row, admitted: set<Rid>, marked: set<Rid>)
    requires RowsKnown(rows, admitted, marked) && row.settledAt.None?
    ensures RowsKnown(Prune(rows)[rid := row], admitted + {rid}, marked)
  {
  }

  // The rows and the marked ids after one action of a call.
  lemma RunRowsKnown(cfg: Config, s: State, c: Cid, f: bool)
    requires Settlement.WellFormed(s) && Known(s) && c in s.calls
    ensures var s' := Next(cfg, s, Run(c, f));
            RowsKnown(RowsOf(s'.sh.store), s'.admitted, MarkedIds(s'.sh.store)) && MarkedIds(s.sh.store) <= MarkedIds(s'.sh.store)
  {
    var p, hist := s.calls[c], History(s);
    hide Rise, Act, Checks, Admit, SettleWrites, SettleExpects, Matches, RowsKnown, RowsOf, Prune;
    Settlement.StoreCases(cfg, s.sh, hist, p, f);
    if Settlement.AdmitSwaps(cfg, s.sh, p) {
      AdmitRows(cfg, s.sh, p);
      AdmitKnown(RowsOf(s.sh.store), p.req.rid, NewRow(p.req, p.started, cfg.ttl, Addrs(Checks(cfg, p.req.caller))), s.admitted, MarkedIds(s.sh.store));
    } else {
      RowsAfter(cfg, s.sh, hist, p, f);
    }
  }

  lemma KnownStep(cfg: Config, s: State, step: Step)
    requires Settlement.WellFormed(s) && Known(s)
    ensures Known(Next(cfg, s, step))
  {
    hide Rise, Act, RowsKnown;
    var s' := Next(cfg, s, step);
    if step.Run? && step.cid in s.calls {
      RunRowsKnown(cfg, s, step.cid, step.appendFails);
      ActKnown(cfg, s.sh, History(s), s.calls[step.cid], step.appendFails);
      hide ProgKnown;
      forall c | c in s'.calls ensures ProgKnown(s'.calls[c], s'.admitted, MarkedIds(s'.sh.store), s'.sh.clock) {
        KnownGrows(if c == step.cid then s'.calls[c] else s.calls[c], s.admitted, MarkedIds(s.sh.store), s.sh.clock,
                   s'.admitted, MarkedIds(s'.sh.store), s'.sh.clock);
      }
    } else if step.Tick? {
      hide ProgKnown;
      forall c | c in s.calls ensures ProgKnown(s.calls[c], s'.admitted, MarkedIds(s'.sh.store), s'.sh.clock) {
        KnownGrows(s.calls[c], s.admitted, MarkedIds(s.sh.store), s.sh.clock, s'.admitted, MarkedIds(s'.sh.store), s'.sh.clock);
      }
    }
  }

  // --- counters of the future are empty --------------------------------------------------------------------

  ghost predicate NoFuture(store: Store, clock: Time) {
    forall a, bucket: nat :: CounterKey(a, bucket) in store ==> bucket <= Bucket(clock, a.period)
  }

  lemma SettleNoFuture(store: Store, table: Option<Table>, s: Protocol.Settlement, observed: map<Key, Option<Value>>, clock: Time)
    requires NoFuture(store, clock) && Settlement.Observed(s, observed) && s.now <= clock
    ensures NoFuture(store + SettleWrites(table, s, observed), clock)
  {
    hide Bucket;
    var store' := store + SettleWrites(table, s, observed);
    forall a, bucket: nat | CounterKey(a, bucket) in store' ensures bucket <= Bucket(clock, a.period) {
      if CounterKey(a, bucket) in observed { BucketsRise(s.now, clock, a.period); }
    }
  }

  lemma NoFutureStep(cfg: Config, s: State, step: Step)
    requires Settlement.WellFormed(s) && Known(s) && NoFuture(s.sh.store, s.sh.clock)
    ensures NoFuture(Next(cfg, s, step).sh.store, Next(cfg, s, step).sh.clock)
  {
    hide Rise, Bucket;
    if step.Run? && step.cid in s.calls {
      var p := s.calls[step.cid];
      Settlement.StoreCases(cfg, s.sh, History(s), p, step.appendFails);
      assert ProgKnown(p, s.admitted, MarkedIds(s.sh.store), s.sh.clock);
      hide Act, SettleWrites, Admit, Matches, SettleExpects;
      if Settlement.SettleSwaps(s.sh, p) { SettleNoFuture(s.sh.store, p.table, p.s, p.observed, s.sh.clock); }
    } else if step.Tick? {
      forall a, bucket: nat | CounterKey(a, bucket) in s.sh.store ensures bucket <= Bucket(s.sh.clock + step.elapsed, a.period) {
        BucketsRise(s.sh.clock, s.sh.clock + step.elapsed, a.period);
      }
    }
  }

  // When the period rolls over the counter starts from zero.
  lemma UsedFalls(store: Store, clock: Time, later: Time, a: Addr, m: Metric)
    requires NoFuture(store, clock) && clock <= later
    ensures Get(Used(store, a, later), m) <= Get(Used(store, a, clock), m)
  {
    BucketsRise(clock, later, a.period);
    hide Bucket;
  }

  lemma LoadFalls(sh: Shared, later: Time, a: Addr, m: Metric)
    requires NoFuture(sh.store, sh.clock) && sh.clock <= later
    ensures Load(sh.(clock := later), a, m) <= Load(sh, a, m)
  {
    UsedFalls(sh.store, sh.clock, later, a, m);
    HeldFalls(RowsOf(sh.store), a, m, sh.clock, later);
  }

  // --- what a reserve call may rely on -----------------------------------------------------------------------

  // The table has moved on since the call read it: someone was admitted, or a request with a row was settled.
  // Neither can be undone, so the table never again equals the one the call read (no ABA).
  ghost predicate Stale(store: Store, seen: Snapshot) {
    || (exists rid :: rid in RowsOf(store) && rid !in seen.admitted)
    || (exists rid :: rid in RowsOf(store) && RowsOf(store)[rid].settledAt.Some? && rid !in seen.marked)
  }

  lemma StaleDiffers(store: Store, seen: Snapshot)
    requires Stale(store, seen) && RowsKnown(SeenRows(seen.table), seen.admitted, seen.marked)
    ensures RowsOf(store) != SeenRows(seen.table)
  {
  }

  lemma StaleStays(cfg: Config, s: State, c: Cid, f: bool, seen: Snapshot)
    requires Settlement.WellFormed(s) && Known(s) && FreshIds(s) && c in s.calls
    requires Stale(s.sh.store, seen) && seen.admitted <= s.admitted
    ensures Stale(Act(cfg, s.sh, History(s), s.calls[c], f).store, seen)
  {
    var p := s.calls[c];
    var store' := Act(cfg, s.sh, History(s), p, f).store;
    Settlement.StoreCases(cfg, s.sh, History(s), p, f);
    if Settlement.AdmitSwaps(cfg, s.sh, p) {
      AdmitRows(cfg, s.sh, p);
      hide Act, Checks, Prune, Admit;
      assert p.req.rid in RowsOf(store') && p.req.rid !in seen.admitted;
    } else {
      RowsAfter(cfg, s.sh, History(s), p, f);
      hide Act, RowsOf, RowsKnown, ProgKnown;
      if rid :| rid in RowsOf(s.sh.store) && rid !in seen.admitted {
        assert rid in RowsOf(store');
      } else {
        var rid :| rid in RowsOf(s.sh.store) && RowsOf(s.sh.store)[rid].settledAt.Some? && rid !in seen.marked;
        assert rid in RowsOf(store') && RowsOf(store')[rid].settledAt.Some?;
      }
    }
  }

  // The room a policy check has established: used now, plus what the table it saw holds, plus the estimate.
  ghost predicate Room(sh: Shared, over: PerLane, seen: Snapshot, c: Check, estimate: Charge) {
    forall m :: Limit(c.policy, m).Some? ==>
      Get(Used(sh.store, c.addr, sh.clock), m) + Held(Prune(SeenRows(seen.table)), c.addr, m, sh.clock) + Amount(estimate, m)
      <= Limit(c.policy, m).value + At(over, c.addr, m)
  }

  ghost predicate Obliged(cfg: Config, sh: Shared, over: PerLane, p: Prog) {
    p.ReserveCheck? ==>
      Stale(sh.store, p.seen) ||
      var checks := Checks(cfg, p.req.caller);
      && p.done <= |checks|
      && (forall i :: 0 <= i < p.done ==> Room(sh, over, p.seen, checks[i], p.req.estimate))
      && (p.used.Some? ==> p.done < |checks| && forall m ::
            Get(Used(sh.store, checks[p.done].addr, sh.clock), m) <= Get(p.used.value, m) + At(over, checks[p.done].addr, m))
  }

  // Obligations survive anything that uses no more of a lane than it adds to `over`.
  lemma ObligedFrame(cfg: Config, sh: Shared, over: PerLane, sh': Shared, over': PerLane, p: Prog)
    requires Obliged(cfg, sh, over, p) && (p.ReserveCheck? ==> (Stale(sh.store, p.seen) ==> Stale(sh'.store, p.seen)))
    requires sh.clock <= sh'.clock
    requires forall a, m :: Get(Used(sh'.store, a, sh'.clock), m) - At(over', a, m) <= Get(Used(sh.store, a, sh.clock), m) - At(over, a, m)
    ensures Obliged(cfg, sh', over', p)
  {
    hide Used, Checks, Prune, Stale;
    if p.ReserveCheck? && !Stale(sh'.store, p.seen) {
      var checks := Checks(cfg, p.req.caller);
      forall i | 0 <= i < p.done ensures Room(sh', over', p.seen, checks[i], p.req.estimate) {
        assert Room(sh, over, p.seen, checks[i], p.req.estimate);
        forall m { HeldFalls(Prune(SeenRows(p.seen.table)), checks[i].addr, m, sh.clock, sh'.clock); }
      }
    }
  }

  // --- the bound ---------------------------------------------------------------------------------------------

  ghost predicate Bounded(cfg: Config, sh: Shared, over: PerLane) {
    forall lane, subject, policy, m :: policy in PoliciesOf(cfg, lane, subject) && Limit(policy, m).Some? ==>
      Load(sh, Addr(lane, subject, policy.period), m) <= Limit(policy, m).value + At(over, Addr(lane, subject, policy.period), m)
  }

  // A request that touches a lane has been checked against every policy of that lane.
  lemma EveryPolicyChecked(cfg: Config, caller: Caller, a: Addr, policy: Policy)
    requires a in Addrs(Checks(cfg, caller)) && policy in PoliciesOf(cfg, a.lane, a.subject) && policy.period == a.period
    ensures Check(a, policy) in Checks(cfg, caller)
  {
    var checks := Checks(cfg, caller);
    var i :| 0 <= i < |checks| && checks[i].addr == a;
    ChecksForComplete(cfg, Subjects(caller), checks[i]);
    ChecksForComplete(cfg, Subjects(caller), Check(a, policy));
  }

  // An admission adds at most the estimate to each lane of the new row, and nothing to any other lane.
  lemma AdmitLoad(cfg: Config, sh: Shared, p: Prog, a: Addr, m: Metric)
    requires Typed(sh.store) && Settlement.AdmitSwaps(cfg, sh, p) && p.req.rid !in RowsOf(sh.store)
    ensures var sh' := sh.(store := sh.store[TableKey := TableValue(Admit(p.seen.table, p.req, p.started, cfg))]);
            && Used(sh'.store, a, sh.clock) == Used(sh.store, a, sh.clock)
            && Load(sh', a, m) <= Load(sh, a, m) + if a in Addrs(Checks(cfg, p.req.caller)) then Amount(p.req.estimate, m) else 0
  {
    AdmitRows(cfg, sh, p);
    var rows := RowsOf(sh.store);
    var row := NewRow(p.req, p.started, cfg.ttl, Addrs(Checks(cfg, p.req.caller)));
    assert p.req.rid !in Prune(rows);
    hide Checks, Admit, Prune, Bucket;
    HeldUpdate(Prune(rows), p.req.rid, row, a, m, sh.clock);
    PruneNeutral(rows, a, m, sh.clock);
  }

  lemma AdmitBounded(cfg: Config, sh: Shared, over: PerLane, p: Prog)
    requires Typed(sh.store) && Settlement.AdmitSwaps(cfg, sh, p) && p.req.rid !in RowsOf(sh.store)
    requires Bounded(cfg, sh, over) && Obliged(cfg, sh, over, p)
    requires RowsKnown(SeenRows(p.seen.table), p.seen.admitted, p.seen.marked)
    ensures Bounded(cfg, sh.(store := sh.store[TableKey := TableValue(Admit(p.seen.table, p.req, p.started, cfg))]), over)
  {
    var sh' := sh.(store := sh.store[TableKey := TableValue(Admit(p.seen.table, p.req, p.started, cfg))]);
    AdmitRows(cfg, sh, p);
    if Stale(sh.store, p.seen) { StaleDiffers(sh.store, p.seen); }
    var checks := Checks(cfg, p.req.caller);
    hide Stale, RowsKnown, Admit, Prune, Used, Checks;
    forall lane, subject, policy, m | policy in PoliciesOf(cfg, lane, subject) && Limit(policy, m).Some?
      ensures Load(sh', Addr(lane, subject, policy.period), m)
              <= Limit(policy, m).value + At(over, Addr(lane, subject, policy.period), m)
    {
      var a := Addr(lane, subject, policy.period);
      AdmitLoad(cfg, sh, p, a, m);
      if a in Addrs(checks) {
        EveryPolicyChecked(cfg, p.req.caller, a, policy);
        var i :| 0 <= i < |checks| && checks[i] == Check(a, policy);
        assert Room(sh, over, p.seen, checks[i], p.req.estimate);
        PruneNeutral(RowsOf(sh.store), a, m, sh.clock);
      }
    }
  }

  // --- obligations over one step -------------------------------------------------------------------------------

  ghost predicate AllObliged(cfg: Config, s: State) {
    forall c :: c in s.calls ==> Obliged(cfg, s.sh, s.over, s.calls[c])
  }

  lemma RaisedBy(over: PerLane, sh: Shared, sh': Shared, a: Addr, m: Metric)
    ensures At(Raised(over, sh, sh'), a, m) == At(over, a, m) + Rise(sh, sh', a, m)
  {
    hide Rise;
    assert (a, m) in Raised(over, sh, sh');
  }

  // The reserve call itself: reading the usage and comparing it builds up room, check by check.
  lemma ActObliged(cfg: Config, sh: Shared, hist: Snapshot, over: PerLane, p: Prog, f: bool)
    requires Obliged(cfg, sh, over, p)
    ensures var o := Act(cfg, sh, hist, p, f); o.prog.ReserveCheck? ==> o.store == sh.store && Obliged(cfg, sh, over, o.prog)
  {
    hide LanesToDebit, Admit, EditRows, Prune, RowsOf, Matches, SettleExpects, SettleWrites, Bucket, Used, Stale, Checks, ActSettle, ActEdit;
    ActReserving(cfg, sh, hist, p, f);
  }

  // A settlement that closes a row makes every earlier snapshot stale: the table now shows a settled request
  // whose marker did not stand when the snapshot was taken.
  lemma SettledIsStale(store: Store, table: Option<Table>, s: Protocol.Settlement, observed: map<Key, Option<Value>>, seen: Snapshot)
    requires Settlement.Observed(s, observed) && Matches(store, SettleExpects(table, s, observed)) && HasReservation(table, s)
    requires seen.marked <= MarkedIds(store)
    ensures Stale(store + SettleWrites(table, s, observed), seen)
  {
    var store' := store + SettleWrites(table, s, observed);
    SettleTable(store, table, s, observed);
    Settlement.SettleMarks(store, table, s, observed);
    hide SettleWrites, SettleExpects, Matches, Bucket, RowsOf;
    assert s.rid in RowsOf(store') && RowsOf(store')[s.rid].settledAt.Some? && s.rid !in seen.marked;
  }

  // Any other action that is not an admission uses no more of a lane than the lane's load rises.
  lemma UsedWithinRise(cfg: Config, sh: Shared, hist: Snapshot, p: Prog, f: bool, a: Addr, m: Metric)
    requires Typed(sh.store) && Settlement.Shaped(p) && !Settlement.AdmitSwaps(cfg, sh, p)
    requires !(Settlement.SettleSwaps(sh, p) && HasReservation(p.table, p.s))
    ensures var o := Act(cfg, sh, hist, p, f);
            var sh' := Shared(sh.clock, o.store, o.ledger);
            Get(Used(sh'.store, a, sh'.clock), m) - Get(Used(sh.store, a, sh.clock), m) <= Rise(sh, sh', a, m)
  {
    Settlement.StoreCases(cfg, sh, hist, p, f);
    hide Act, Admit, Checks, Bucket, Held;
    if Settlement.SettleSwaps(sh, p) {
      SettleTable(sh.store, p.table, p.s, p.observed);
      hide SettleWrites, SettleExpects, Matches, Used;
    }
  }

  lemma StaleObliges(cfg: Config, sh: Shared, over: PerLane, p: Prog)
    requires p.ReserveCheck? ==> Stale(sh.store, p.seen)
    ensures Obliged(cfg, sh, over, p)
  {
  }

  // Any action but an admission either leaves a reserve call's room intact, once its own rise is added to
  // `over`, or makes the call's snapshot stale.
  lemma OthersObliged(cfg: Config, s: State, c: Cid, f: bool, p: Prog)
    requires Settlement.WellFormed(s) && Known(s) && FreshIds(s) && c in s.calls && !Settlement.AdmitSwaps(cfg, s.sh, s.calls[c])
    requires Obliged(cfg, s.sh, s.over, p) && ProgKnown(p, s.admitted, MarkedIds(s.sh.store), s.sh.clock)
    ensures var o := Act(cfg, s.sh, History(s), s.calls[c], f);
            var sh' := Shared(s.sh.clock, o.store, o.ledger);
            Obliged(cfg, sh', Raised(s.over, s.sh, sh'), p)
  {
    var q := s.calls[c];
    var o := Act(cfg, s.sh, History(s), q, f);
    var sh' := Shared(s.sh.clock, o.store, o.ledger);
    var over' := Raised(s.over, s.sh, sh');
    if p.ReserveCheck? {
      if Stale(s.sh.store, p.seen) { StaleStays(cfg, s, c, f, p.seen); }
      if Settlement.SettleSwaps(s.sh, q) && HasReservation(q.table, q.s) {
        Settlement.StoreCases(cfg, s.sh, History(s), q, f);
        SettledIsStale(s.sh.store, q.table, q.s, q.observed, p.seen);
        hide Act, Rise, Stale;
        StaleObliges(cfg, sh', over', p);
      } else {
        forall a, m ensures Get(Used(sh'.store, a, sh'.clock), m) - At(over', a, m) <= Get(Used(s.sh.store, a, s.sh.clock), m) - At(s.over, a, m) {
          UsedWithinRise(cfg, s.sh, History(s), q, f, a, m);
          RaisedBy(s.over, s.sh, sh', a, m);
        }
        hide Act, Used, Rise, Obliged, Stale, Raised, At;
        ObligedFrame(cfg, s.sh, s.over, sh', over', p);
      }
    }
  }

  // An admission makes every other reserve call's snapshot stale.
  lemma AdmissionObliges(cfg: Config, s: State, c: Cid, f: bool, p: Prog)
    requires Settlement.WellFormed(s) && Known(s) && FreshIds(s) && c in s.calls && Settlement.AdmitSwaps(cfg, s.sh, s.calls[c])
    requires ProgKnown(p, s.admitted, MarkedIds(s.sh.store), s.sh.clock)
    ensures var o := Act(cfg, s.sh, History(s), s.calls[c], f);
            Obliged(cfg, Shared(s.sh.clock, o.store, o.ledger), s.over, p)
  {
    var q := s.calls[c];
    var o := Act(cfg, s.sh, History(s), q, f);
    Settlement.StoreCases(cfg, s.sh, History(s), q, f);
    AdmitRows(cfg, s.sh, q);
    hide Act, Admit, Checks, Prune;
    if p.ReserveCheck? {
      assert q.req.rid in RowsOf(o.store) && q.req.rid !in p.seen.admitted;
    }
    StaleObliges(cfg, Shared(s.sh.clock, o.store, o.ledger), s.over, p);
  }

  lemma RunObliged(cfg: Config, s: State, c: Cid, f: bool)
    requires Settlement.WellFormed(s) && Known(s) && FreshIds(s) && AllObliged(cfg, s) && c in s.calls
    ensures AllObliged(cfg, Next(cfg, s, Run(c, f)))
  {
    var p := s.calls[c];
    var s' := Next(cfg, s, Run(c, f));
    Settlement.StoreCases(cfg, s.sh, History(s), p, f);
    ActObliged(cfg, s.sh, History(s), s.over, p, f);
    ActReserving(cfg, s.sh, History(s), p, f);
    hide Act, Rise, Obliged, Admit, SettleWrites, SettleExpects, Matches, Checks;
    if Settlement.AdmitSwaps(cfg, s.sh, p) {
      forall d | d in s'.calls ensures Obliged(cfg, s'.sh, s'.over, s'.calls[d]) {
        if d == c { StaleObliges(cfg, s'.sh, s'.over, s'.calls[c]); } else { AdmissionObliges(cfg, s, c, f, s.calls[d]); }
      }
    } else {
      forall d | d in s'.calls ensures Obliged(cfg, s'.sh, s'.over, s'.calls[d]) {
        if d != c {
          OthersObliged(cfg, s, c, f, s.calls[d]);
        } else if s'.calls[c].ReserveCheck? {
          forall a, m { RaisedBy(s.over, s.sh, s'.sh, a, m); }
          ObligedFrame(cfg, s.sh, s.over, s'.sh, s'.over, s'.calls[c]);
        } else {
          StaleObliges(cfg, s'.sh, s'.over, s'.calls[c]);
        }
      }
    }
  }

  lemma ObligedStep(cfg: Config, s: State, step: Step)
    requires Settlement.WellFormed(s) && Known(s) && FreshIds(s) && NoFuture(s.sh.store, s.sh.clock) && AllObliged(cfg, s)
    ensures AllObliged(cfg, Next(cfg, s, step))
  {
    var s' := Next(cfg, s, step);
    match step
    case Run(c, f) => if c in s.calls { RunObliged(cfg, s, c, f); }
    case Tick(elapsed) =>
      hide Obliged, Used;
      forall c | c in s.calls ensures Obliged(cfg, s'.sh, s.over, s.calls[c]) {
        forall a, m { UsedFalls(s.sh.store, s.sh.clock, s'.sh.clock, a, m); }
        ObligedFrame(cfg, s.sh, s.over, s'.sh, s.over, s.calls[c]);
      }
    case _ =>
      forall c | c in s'.calls ensures Obliged(cfg, s'.sh, s'.over, s'.calls[c]) {
        if c !in s.calls || s'.calls[c] != s.calls[c] { StaleObliges(cfg, s'.sh, s'.over, s'.calls[c]); }
      }
  }

  // --- the bound over every run -----------------------------------------------------------------------------------

  lemma BoundedStep(cfg: Config, s: State, step: Step)
    requires Settlement.WellFormed(s) && Known(s) && FreshIds(s) && NoFuture(s.sh.store, s.sh.clock) && AllObliged(cfg, s)
    requires Bounded(cfg, s.sh, s.over)
    ensures Bounded(cfg, Next(cfg, s, step).sh, Next(cfg, s, step).over)
  {
    var s' := Next(cfg, s, step);
    if step.Run? && step.cid in s.calls {
      var p := s.calls[step.cid];
      Settlement.StoreCases(cfg, s.sh, History(s), p, step.appendFails);
      hide Act, Obliged, Admit, SettleWrites, SettleExpects, Matches, Checks, Stale;
      if Settlement.AdmitSwaps(cfg, s.sh, p) {
        hide Load, Rise;
        AdmitBounded(cfg, s.sh, s.over, p);
      } else {
        hide Load;
        forall a, m { RaisedBy(s.over, s.sh, s'.sh, a, m); }
      }
    } else if step.Tick? {
      forall a, m { LoadFalls(s.sh, s'.sh.clock, a, m); }
      hide Load;
    }
  }

  ghost predicate Safe(cfg: Config, s: State) {
    Settlement.WellFormed(s) && Known(s) && FreshIds(s) && NoFuture(s.sh.store, s.sh.clock) && AllObliged(cfg, s) && Bounded(cfg, s.sh, s.over)
  }

  lemma SafeStep(cfg: Config, s: State, step: Step)
    requires Safe(cfg, s) && FreshStep(s, step)
    ensures Safe(cfg, Next(cfg, s, step))
  {
    hide Next, Known, FreshIds, NoFuture, AllObliged, Bounded, FreshStep, Settlement.WellFormed;
    Settlement.WellFormedStep(cfg, s, step);
    KnownStep(cfg, s, step);
    FreshIdsStep(cfg, s, step);
    NoFutureStep(cfg, s, step);
    ObligedStep(cfg, s, step);
    BoundedStep(cfg, s, step);
  }

  // In every run with fresh request ids, a lane's usage plus its live reservations stays within each of its
  // policies' limits, up to what steps other than admissions have added.
  lemma {:induction false} AlwaysSafe(cfg: Config, clock: Time, steps: seq<Step>)
    requires DistinctReserves(steps)
    ensures Safe(cfg, Exec(cfg, clock, steps))
  {
    if steps == [] {
      assert MarkedIds(map[]) == {};
    } else {
      var n := |steps| - 1;
      AlwaysSafe(cfg, clock, steps[..n]);
      var s := Exec(cfg, clock, steps[..n]);
      if !FreshStep(s, steps[n]) {
        RequestedBySteps(cfg, clock, steps[..n], steps[n].op.req.rid);
      }
      hide Safe, Next, FreshStep;
      SafeStep(cfg, s, steps[n]);
    }
  }
}
