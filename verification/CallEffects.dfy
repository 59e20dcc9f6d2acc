/** What the calls of the protocol do, said without the functions they are built from: which requests are let in and
    what they then hold, what a settlement debits and records, what an update, a sweep and a reconciliation leave. The
    statements about whole calls hold from every reachable state, for a call that then runs without interruption. */
module CallEffects {
  import opened Prelude
  import opened Calendar
  import opened Reservations
  import opened ProjectionSwap
  import opened Protocol
  import opened Charging
  import Settlement
  import Admission
  import RowLife
  import Guard
  import SoloRuns
  import GraphState

  // --- reserve --------------------------------------------------------------------------------------------------

  predicate Open(r: Row) { r.state != Settled && r.state != Released }

  // An admitted request holds its estimate in every lane its caller is charged in, from the start of its call for the
  // time to live and not longer, and nothing in any other lane. Closed rows are dropped, open ones stay as they are.
  lemma AdmissionHolds(cfg: Config, table: Option<Table>, req: Request, started: Time, a: Addr, m: Metric, t: Time)
    ensures var rows := if table.Some? then table.value.rows else map[];
            var next := Admit(table, req, started, cfg);
            && req.rid in next.rows && next.updatedAt == started
            && (forall other :: other != req.rid ==> (other in next.rows <==> other in rows && Open(rows[other])))
            && (forall other :: other != req.rid && other in next.rows ==> next.rows[other] == rows[other])
            && var row := next.rows[req.rid];
               && row.state == Reserved && row.createdAt == Some(started) && row.estimate == req.estimate
               && row.principal == req.caller.principal && row.key == req.caller.key
               && row.actualUsd.None? && row.actualTokens.None? && row.settledAt.None? && row.reconciledAt.None?
               && HoldOf(row, a, m, t) == if Charged(cfg, req.caller, a) && t <= started + cfg.ttl then Amount(req.estimate, m) else 0
  {
    LanesAre(cfg, req.caller, a);
    hide Checks, Charged;
  }

  // In every run with fresh ids, from the step that lets a request in: as long as nobody settles it or edits its row, it
  // holds its estimate in exactly the lanes its caller is charged in, until the time to live is over.
  lemma AdmittedHoldsItsLanes(cfg: Config, clock: Time, steps: seq<Step>, i: nat, rid: Rid, a: Addr, m: Metric)
    requires Admission.DistinctReserves(steps) && i < |steps| && RowLife.LeftAlone(cfg, clock, steps, i + 1, rid)
    requires rid !in Exec(cfg, clock, steps[..i]).admitted && rid in Exec(cfg, clock, steps[..i + 1]).admitted
    ensures steps[i].Run? && steps[i].cid in Exec(cfg, clock, steps[..i]).calls
    ensures var p := Exec(cfg, clock, steps[..i]).calls[steps[i].cid];
            var sh := Exec(cfg, clock, steps).sh;
            && p.ReserveCheck? && p.req.rid == rid
            && RowLife.Hold(sh, rid, a, m) == if Charged(cfg, p.req.caller, a) && sh.clock <= p.started + cfg.ttl then Amount(p.req.estimate, m) else 0
  {
    var before, step := Exec(cfg, clock, steps[..i]), steps[i];
    assert steps[..i + 1][..i] == steps[..i];
    assert Exec(cfg, clock, steps[..i + 1]) == Next(cfg, before, step);
    AdmittingStep(cfg, before, step, rid);
    Settlement.CountersRebuildable(cfg, clock, steps[..i]);
    hide Exec, Next, Settlement.CountersAreReplay, Charged;
    var p := before.calls[step.cid];
    AdmittedRow(cfg, before, step, rid);
    var row := NewRow(p.req, p.started, cfg.ttl, Addrs(Checks(cfg, p.req.caller)));
    hide RowLife.LeftAlone, Settlement.WellFormed;
    RowLife.ReservationHoldsUntilDeadline(cfg, clock, steps, i + 1, rid, row, a, m);
    LanesAre(cfg, p.req.caller, a);
    hide Checks;
  }

  lemma AdmittingStep(cfg: Config, s: State, step: Step, rid: Rid)
    requires rid !in s.admitted && rid in Next(cfg, s, step).admitted
    ensures step.Run? && step.cid in s.calls && Settlement.AdmitSwaps(cfg, s.sh, s.calls[step.cid]) && s.calls[step.cid].req.rid == rid
  {
    hide Rise;
    if step.Run? && step.cid in s.calls { Admission.ActReserving(cfg, s.sh, History(s), s.calls[step.cid], step.appendFails); }
    hide Act;
  }

  lemma AdmittedRow(cfg: Config, s: State, step: Step, rid: Rid)
    requires Settlement.WellFormed(s) && step.Run? && step.cid in s.calls
    requires Settlement.AdmitSwaps(cfg, s.sh, s.calls[step.cid]) && s.calls[step.cid].req.rid == rid
    ensures var p := s.calls[step.cid];
            var rows := RowsOf(Next(cfg, s, step).sh.store);
            rid in rows && rows[rid] == NewRow(p.req, p.started, cfg.ttl, Addrs(Checks(cfg, p.req.caller)))
  {
    hide Rise;
    Settlement.StoreCases(cfg, s.sh, History(s), s.calls[step.cid], step.appendFails);
    Admission.AdmitRows(cfg, s.sh, s.calls[step.cid]);
    hide Act, Admit, Checks, Prune, NewRow, RowsOf;
  }

  // The policy has room for the estimate on top of what its lane has used and holds.
  ghost predicate Room(sh: Shared, a: Addr, policy: Policy, estimate: Charge) {
    && (policy.maxUsd.Some? ==> Load(sh, a, Usd) + estimate.usd <= policy.maxUsd.value)
    && (policy.maxTokens.Some? ==> Load(sh, a, Tokens) + estimate.tokens <= policy.maxTokens.value)
    && (policy.maxRequests.Some? ==> Load(sh, a, Requests) + 1 <= policy.maxRequests.value)
  }

  // Every policy of every lane the caller is charged in has room.
  ghost predicate HasRoom(cfg: Config, sh: Shared, req: Request) {
    forall lane, subject, policy :: Charges(req.caller, lane, subject) && HasPolicy(cfg, lane, subject, policy) ==>
      Room(sh, Addr(lane, subject, policy.period), policy, req.estimate)
  }

  lemma FitsIsRoom(sh: Shared, c: Check, estimate: Charge)
    ensures Room(sh, c.addr, c.policy, estimate)
            <==> forall m :: Fits(Get(Used(sh.store, c.addr, sh.clock), m), RowsOf(sh.store), c, m, estimate, sh.clock)
  {
    forall m { PruneNeutral(RowsOf(sh.store), c.addr, m, sh.clock); }
    hide Prune, Held, Used, RowsOf;
    if Room(sh, c.addr, c.policy, estimate) {
      forall m ensures Fits(Get(Used(sh.store, c.addr, sh.clock), m), RowsOf(sh.store), c, m, estimate, sh.clock) {}
    } else {
      assert !Fits(Get(Used(sh.store, c.addr, sh.clock), Usd), RowsOf(sh.store), c, Usd, estimate, sh.clock)
          || !Fits(Get(Used(sh.store, c.addr, sh.clock), Tokens), RowsOf(sh.store), c, Tokens, estimate, sh.clock)
          || !Fits(Get(Used(sh.store, c.addr, sh.clock), Requests), RowsOf(sh.store), c, Requests, estimate, sh.clock);
    }
  }

  lemma AllFitIsRoom(cfg: Config, sh: Shared, req: Request)
    ensures Guard.AllFit(cfg, sh.store, req, sh.clock) <==> HasRoom(cfg, sh, req)
  {
    hide Fits, Room, Used, RowsOf, Checks, Charges, HasPolicy;
    if HasRoom(cfg, sh, req) {
      forall c, m | c in Checks(cfg, req.caller)
        ensures Fits(Get(Used(sh.store, c.addr, sh.clock), m), RowsOf(sh.store), c, m, req.estimate, sh.clock)
      {
        ChecksAre(cfg, req.caller, c);
        assert Room(sh, Addr(c.addr.lane, c.addr.subject, c.policy.period), c.policy, req.estimate);
        FitsIsRoom(sh, c, req.estimate);
      }
    }
    if Guard.AllFit(cfg, sh.store, req, sh.clock) {
      forall lane, subject, policy | Charges(req.caller, lane, subject) && HasPolicy(cfg, lane, subject, policy)
        ensures Room(sh, Addr(lane, subject, policy.period), policy, req.estimate)
      {
        var c := Check(Addr(lane, subject, policy.period), policy);
        ChecksAre(cfg, req.caller, c);
        FitsIsRoom(sh, c, req.estimate);
      }
    }
  }

  // What admitting a request with room leaves: its estimate held in exactly these lanes, and nothing else changed but
  // the table.
  ghost predicate Admitted(cfg: Config, sh: Shared, after: Shared, req: Request) {
    && after.clock == sh.clock && after.ledger == sh.ledger
    && (forall key :: key != TableKey ==> Read(after.store, key) == Read(sh.store, key))
    && forall a, m :: RowLife.Hold(after, req.rid, a, m) == if Charged(cfg, req.caller, a) then Amount(req.estimate, m) else 0
  }

  lemma AdmittedIs(cfg: Config, sh: Shared, req: Request)
    ensures Admitted(cfg, sh, sh.(store := sh.store[TableKey := TableValue(Admit(TableOf(sh.store), req, sh.clock, cfg))]), req)
  {
    hide Charged, Admit;
    var written := sh.store[TableKey := TableValue(Admit(TableOf(sh.store), req, sh.clock, cfg))];
    forall a, m { AdmissionHolds(cfg, TableOf(sh.store), req, sh.clock, a, m, sh.clock); }
    assert RowsOf(written) == Admit(TableOf(sh.store), req, sh.clock, cfg).rows;
    hide HoldOf, RowsOf;
  }

  lemma OpenIsKept(rows: map<Rid, Row>, rid: Rid)
    ensures rid in Prune(rows) <==> rid in rows && Open(rows[rid])
  {
  }

  // A reserve call is answered True if and only if its request holds an open row already or every policy of every lane
  // it is charged in has room; in the second case it then holds its estimate in exactly these lanes, and in every other
  // case nothing has changed.
  lemma AdmittedExactly(cfg: Config, clock: Time, steps: seq<Step>, c: Cid, req: Request) returns (k: nat)
    requires c !in Exec(cfg, clock, steps).calls
    ensures var sh := Exec(cfg, clock, steps).sh;
            var e := Exec(cfg, clock, steps + [Begin(c, ReserveOp(req))] + SoloRuns.Actions(c, k));
            var held := req.rid in RowsOf(sh.store) && Open(RowsOf(sh.store)[req.rid]);
            && c in e.calls && e.calls[c] == ReserveDone(req.rid, held || HasRoom(cfg, sh, req))
            && (held || !HasRoom(cfg, sh, req) ==> e.sh == sh)
            && (!held && HasRoom(cfg, sh, req) ==> Admitted(cfg, sh, e.sh, req))
  {
    hide Exec, Guard.AllFit, HasRoom, Admit, Admitted, RowsOf, TableOf, Open, Prune;
    k := SoloRuns.ReserveAlone(cfg, clock, steps, c, req);
    var sh := Exec(cfg, clock, steps).sh;
    AllFitIsRoom(cfg, sh, req);
    AdmittedIs(cfg, sh, req);
    OpenIsKept(RowsOf(sh.store), req.rid);
  }

  // --- settle ---------------------------------------------------------------------------------------------------

  // The settlement of an unmarked request: each lane it debits gets the actual amounts, and one request, in the period
  // of the settlement; no other counter moves.
  lemma SettlementDebits(cfg: Config, store: Store, s: Protocol.Settlement, a: Addr, bucket: nat)
    requires Typed(store) && !Marked(store, s.rid)
    ensures var was := CounterAt(store, a, bucket);
            CounterAt(Guard.SettledStore(cfg, store, s), a, bucket)
            == if Debited(cfg, TableOf(store), s, a) && bucket == Bucket(s.now, a.period)
               then Totals(was.usd + s.actual.usd, was.tokens + s.actual.tokens, was.requests + 1) else was
  {
    var table := TableOf(store);
    var observed := Guard.ReadLanes(store, LanesToDebit(cfg, table, s), s.now);
    Guard.SettleMatches(cfg, store, s);
    DebitsAre(cfg, table, s, a);
    hide Bucket, LanesToDebit, CounterAt, Debited, SettleWrites, SettleExpects, Matches;
    Guard.ReadLanesAre(store, LanesToDebit(cfg, table, s), s.now);
    hide Guard.ReadLanes, DebitedLanes;
    Settlement.SettleCounters(store, table, s, observed, a, bucket);
  }

  // And it closes the request's row if it has one, leaves every other row, and writes the marker that says what was
  // debited where.
  lemma SettlementRecords(cfg: Config, store: Store, s: Protocol.Settlement)
    requires Typed(store) && !Marked(store, s.rid)
    ensures var after := Guard.SettledStore(cfg, store, s);
            && RowsOf(after) == (if s.rid in RowsOf(store) then RowsOf(store)[s.rid := Settlement.Closed(RowsOf(store)[s.rid], s)] else RowsOf(store))
            && MarkerKey(s.rid) in after && after[MarkerKey(s.rid)].MarkerValue?
            && (forall rid :: rid != s.rid ==> Read(after, MarkerKey(rid)) == Read(store, MarkerKey(rid)))
            && var mark := after[MarkerKey(s.rid)].marker;
               && mark.estimate == s.estimate && mark.actual == s.actual && mark.settledAt == s.now
               && forall a :: a in mark.lanes <==> Debited(cfg, TableOf(store), s, a)
  {
    var table := TableOf(store);
    var observed := Guard.ReadLanes(store, LanesToDebit(cfg, table, s), s.now);
    Guard.SettleMatches(cfg, store, s);
    forall a { DebitsAre(cfg, table, s, a); }
    hide Bucket, LanesToDebit, Debited, SettleWrites, SettleExpects, Matches;
    Guard.ReadLanesAre(store, LanesToDebit(cfg, table, s), s.now);
    hide Guard.ReadLanes, DebitedLanes;
    Settlement.SettleMarks(store, table, s, observed);
    Admission.SettleTable(store, table, s, observed);
  }

  // Who a settlement is booked to: the user if one is known, else the principal.
  function Bearer(c: Caller): string { if c.user != "" then c.user else c.principal }

  // What is in the ledger after a settlement: one more event for a request that was not settled before, with the actual
  // amounts, or for one that was and has none, with the amounts of its marker; none if nobody is known to bear it.
  ghost predicate LedgerAfter(sh: Shared, after: Shared, rid: Rid, caller: Caller, actual: Charge) {
    if Bearer(caller) == "" then after.ledger == sh.ledger
    else if !Marked(sh.store, rid) then after.ledger == sh.ledger + [Entry(Bearer(caller), rid, actual)]
    else if exists i :: 0 <= i < |sh.ledger| && sh.ledger[i].rid == rid then after.ledger == sh.ledger
    else sh.store[MarkerKey(rid)].MarkerValue?
         && after.ledger == sh.ledger + [Entry(Bearer(caller), rid, sh.store[MarkerKey(rid)].marker.actual)]
  }

  ghost predicate DebitedAfter(cfg: Config, store: Store, after: Store, s: Protocol.Settlement) {
    forall a, bucket :: var was := CounterAt(store, a, bucket);
                        CounterAt(after, a, bucket)
                        == if Debited(cfg, TableOf(store), s, a) && bucket == Bucket(s.now, a.period)
                           then Totals(was.usd + s.actual.usd, was.tokens + s.actual.tokens, was.requests + 1) else was
  }

  lemma SettledIs(cfg: Config, sh: Shared, s: Protocol.Settlement)
    requires Typed(sh.store)
    ensures var after := SoloRuns.Settled(cfg, sh, s);
            && LedgerAfter(sh, after, s.rid, s.caller, s.actual)
            && (Marked(sh.store, s.rid) ==> after.store == sh.store)
            && (!Marked(sh.store, s.rid) ==>
                  && DebitedAfter(cfg, sh.store, after.store, s)
                  && RowsOf(after.store) == (if s.rid in RowsOf(sh.store) then RowsOf(sh.store)[s.rid := Settlement.Closed(RowsOf(sh.store)[s.rid], s)]
                                             else RowsOf(sh.store)))
  {
    hide Bucket, Guard.SettledStore, Debited, CounterAt, RowsOf, Settlement.Closed;
    if !Marked(sh.store, s.rid) {
      SettlementRecords(cfg, sh.store, s);
      forall a, bucket { SettlementDebits(cfg, sh.store, s, a, bucket); }
    } else {
      assert sh.store[MarkerKey(s.rid)].MarkerValue?;
      hide Typed;
    }
  }

  // A settle call answers True. A request that was not settled before is debited, its row closed and its event booked; one
  // that was is not debited again and gets at most its missing event.
  lemma SettledExactly(cfg: Config, clock: Time, steps: seq<Step>, c: Cid, rid: Rid, caller: Caller, estimate: Charge, actual: Charge) returns (k: nat)
    requires c !in Exec(cfg, clock, steps).calls
    ensures var sh := Exec(cfg, clock, steps).sh;
            var e := Exec(cfg, clock, steps + [Begin(c, SettleOp(rid, caller, estimate, actual))] + SoloRuns.Actions(c, k));
            var s := Protocol.Settlement(rid, caller, estimate, actual, sh.clock);
            && c in e.calls && e.calls[c].SettleDone? && e.calls[c].ok
            && LedgerAfter(sh, e.sh, rid, caller, actual)
            && (Marked(sh.store, rid) ==> e.sh.store == sh.store)
            && (!Marked(sh.store, rid) ==>
                  && DebitedAfter(cfg, sh.store, e.sh.store, s)
                  && RowsOf(e.sh.store) == (if rid in RowsOf(sh.store) then RowsOf(sh.store)[rid := Settlement.Closed(RowsOf(sh.store)[rid], s)]
                                            else RowsOf(sh.store)))
  {
    k := SoloRuns.SettleAlone(cfg, clock, steps, c, rid, caller, estimate, actual);
    var sh := Exec(cfg, clock, steps).sh;
    hide Exec, LedgerAfter, DebitedAfter, SoloRuns.Settled, RowsOf, Marked;
    SettledIs(cfg, sh, Protocol.Settlement(rid, caller, estimate, actual, sh.clock));
  }

  // --- update, sweep, reconcile -----------------------------------------------------------------------------------

  lemma EditedRows(store: Store, e: Edit, now: Time)
    ensures RowsOf(Guard.Edited(store, e, now)) == match EditRows(RowsOf(store), e, now) case None => RowsOf(store) case Some(rows) => rows
    ensures forall key :: key != TableKey ==> Read(Guard.Edited(store, e, now), key) == Read(store, key)
  {
    hide EditRows;
  }

  // An update of a request without a row changes nothing. Otherwise the row has the new state and nothing else but the
  // given figures changes; made uncertain, the request is on the operators' queue.
  lemma UpdatedExactly(cfg: Config, clock: Time, steps: seq<Step>, c: Cid, rid: Rid, state: RowState, usd: Option<nat>, tokens: Option<nat>)
    returns (k: nat)
    requires c !in Exec(cfg, clock, steps).calls
    ensures var sh := Exec(cfg, clock, steps).sh;
            var e := Exec(cfg, clock, steps + [Begin(c, EditOp(Edit.Update(rid, state, usd, tokens)))] + SoloRuns.Actions(c, k));
            var rows, rows' := RowsOf(sh.store), RowsOf(e.sh.store);
            && (rid !in rows ==> e.sh == sh)
            && rows'.Keys == rows.Keys && (forall other :: other in rows && other != rid ==> rows'[other] == rows[other])
            && (forall key :: key != TableKey ==> Read(e.sh.store, key) == Read(sh.store, key)) && e.sh.ledger == sh.ledger
            && (rid in rows ==>
                  && rows'[rid].state == state && SameTerms(rows[rid], rows'[rid]) && RowLife.Figures(rows[rid], rows'[rid], usd, tokens)
                  && (rid in UncertainRequests(rows') <==> state == Uncertain && rows[rid].reconciledAt.None?))
  {
    var edit := Edit.Update(rid, state, usd, tokens);
    k := SoloRuns.EditAlone(cfg, clock, steps, c, edit);
    var sh := Exec(cfg, clock, steps).sh;
    RowLife.UpdateEffect(RowsOf(sh.store), rid, state, usd, tokens, sh.clock, Addr(KeyLane, "", Hour), Usd, 0);
    EditedRows(sh.store, edit, sh.clock);
    hide Exec, RowsOf, EditRows, UncertainRequests;
  }

  // A sweep leaves no row past its deadline reserved, forwarding or streaming, and changes no other row.
  lemma SweptExactly(cfg: Config, clock: Time, steps: seq<Step>, c: Cid, at: Time) returns (k: nat)
    requires c !in Exec(cfg, clock, steps).calls
    ensures var sh := Exec(cfg, clock, steps).sh;
            var e := Exec(cfg, clock, steps + [Begin(c, EditOp(SweepStale(at)))] + SoloRuns.Actions(c, k));
            var rows, rows' := RowsOf(sh.store), RowsOf(e.sh.store);
            && rows'.Keys == rows.Keys
            && (forall key :: key != TableKey ==> Read(e.sh.store, key) == Read(sh.store, key)) && e.sh.ledger == sh.ledger
            && forall rid :: rid in rows ==>
                 if rows[rid].expiresAt.Some? && rows[rid].expiresAt.value < at && (rows[rid].state == Forwarding || rows[rid].state == Streaming)
                 then rows'[rid].state == Uncertain && SameTerms(rows[rid], rows'[rid]) && SameFigures(rows[rid], rows'[rid])
                 else if rows[rid].expiresAt.Some? && rows[rid].expiresAt.value < at && rows[rid].state == Reserved
                 then rows'[rid].state == Released && SameTerms(rows[rid], rows'[rid]) && SameFigures(rows[rid], rows'[rid])
                 else rows'[rid] == rows[rid]
  {
    k := SoloRuns.EditAlone(cfg, clock, steps, c, SweepStale(at));
    var sh := Exec(cfg, clock, steps).sh;
    EditedRows(sh.store, SweepStale(at), sh.clock);
    hide Exec, RowsOf;
    assert Sweep(RowsOf(sh.store), at).Keys == RowsOf(sh.store).Keys;
    forall rid | rid in RowsOf(sh.store) { SweepLeavesNothingStale(RowsOf(sh.store), at, rid); }
    hide Sweep;
  }

  // What confirming an uncertain request as settled leaves: the amounts are those the operator gave, or the estimate; a
  // request that was not debited before is debited them in the lanes of its row (or of its principal and key), and booked
  // to its principal; its row is settled and reconciled with these amounts, and no other row has changed.
  ghost predicate Reconciled(cfg: Config, sh: Shared, after: Shared, rid: Rid, usd: Option<nat>, tokens: Option<nat>)
    requires rid in RowsOf(sh.store)
  {
    var row := RowsOf(sh.store)[rid];
    var actual := Charge(if usd.Some? then usd.value else row.estimate.usd, if tokens.Some? then tokens.value else row.estimate.tokens);
    ReconciledBooks(cfg, sh, after, rid, row, actual) && ReconciledRow(RowsOf(sh.store), RowsOf(after.store), rid, actual, sh.clock)
  }

  ghost predicate ReconciledBooks(cfg: Config, sh: Shared, after: Shared, rid: Rid, row: Row, actual: Charge) {
    var caller := Caller(row.principal, row.key, "", "");
    && LedgerAfter(sh, after, rid, caller, actual)
    && (Marked(sh.store, rid) ==> forall key :: key != TableKey ==> Read(after.store, key) == Read(sh.store, key))
    && (!Marked(sh.store, rid) ==> DebitedAfter(cfg, sh.store, after.store, Protocol.Settlement(rid, caller, row.estimate, actual, sh.clock)))
  }

  ghost predicate ReconciledRow(rows: map<Rid, Row>, rows': map<Rid, Row>, rid: Rid, actual: Charge, now: Time)
    requires rid in rows
  {
    && rows'.Keys == rows.Keys && (forall other :: other in rows && other != rid ==> rows'[other] == rows[other])
    && rows'[rid].state == Settled && rows'[rid].reconciledAt == Some(now) && SameTerms(rows[rid], rows'[rid])
    && RowLife.Figures(rows[rid], rows'[rid], Some(actual.usd), Some(actual.tokens))
  }

  lemma ConfirmedRow(rows: map<Rid, Row>, settled: map<Rid, Row>, rid: Rid, s: Protocol.Settlement, now: Time)
    requires rid in rows && (settled == rows || settled == rows[rid := Settlement.Closed(rows[rid], s)])
    ensures var next := EditRows(settled, Confirm(rid, rows[rid], s.actual), now);
            next.Some? && ReconciledRow(rows, next.value, rid, s.actual, now)
  {
  }

  lemma BooksKept(cfg: Config, sh: Shared, settled: Shared, e: Edit, s: Protocol.Settlement, row: Row)
    requires s == Protocol.Settlement(s.rid, Caller(row.principal, row.key, "", ""), row.estimate, s.actual, sh.clock)
    requires LedgerAfter(sh, settled, s.rid, s.caller, s.actual)
    requires Marked(sh.store, s.rid) ==> settled.store == sh.store
    requires !Marked(sh.store, s.rid) ==> DebitedAfter(cfg, sh.store, settled.store, s)
    ensures ReconciledBooks(cfg, sh, settled.(store := Guard.Edited(settled.store, e, sh.clock)), s.rid, row, s.actual)
  {
    EditedRows(settled.store, e, sh.clock);
    CountersRead(settled.store, Guard.Edited(settled.store, e, sh.clock));
    hide Guard.Edited, Debited, Bucket, CounterAt;
  }

  lemma ReconciledIs(cfg: Config, sh: Shared, rid: Rid, usd: Option<nat>, tokens: Option<nat>)
    requires Typed(sh.store) && rid in RowsOf(sh.store)
    ensures var row := RowsOf(sh.store)[rid];
            var s := Guard.ReconcileSettlement(rid, row, usd, tokens, sh.clock);
            var settled := SoloRuns.Settled(cfg, sh, s);
            Reconciled(cfg, sh, settled.(store := Guard.Edited(settled.store, Confirm(rid, row, s.actual), sh.clock)), rid, usd, tokens)
  {
    hide RowsOf, EditRows, SoloRuns.Settled, Guard.Edited, Typed, Settlement.Closed, LedgerAfter, DebitedAfter, ReconciledBooks, ReconciledRow;
    var row := RowsOf(sh.store)[rid];
    var s := Guard.ReconcileSettlement(rid, row, usd, tokens, sh.clock);
    SettledIs(cfg, sh, s);
    var settled := SoloRuns.Settled(cfg, sh, s);
    EditedRows(settled.store, Confirm(rid, row, s.actual), sh.clock);
    ConfirmedRow(RowsOf(sh.store), RowsOf(settled.store), rid, s, sh.clock);
    BooksKept(cfg, sh, settled, Confirm(rid, row, s.actual), s, row);
  }

  // A reconcile call on an uncertain request that then runs alone is answered True and leaves exactly that.
  lemma ReconciledExactly(cfg: Config, clock: Time, steps: seq<Step>, c: Cid, rid: Rid, usd: Option<nat>, tokens: Option<nat>)
    returns (settle: nat, confirm: nat)
    requires c !in Exec(cfg, clock, steps).calls
    requires rid in RowsOf(Exec(cfg, clock, steps).sh.store) && RowsOf(Exec(cfg, clock, steps).sh.store)[rid].state == Uncertain
    ensures var sh := Exec(cfg, clock, steps).sh;
            var e := Exec(cfg, clock, steps + [Begin(c, ReconcileOp(rid, usd, tokens))] + SoloRuns.Actions(c, settle) + SoloRuns.Actions(c, confirm));
            && c in e.calls && e.calls[c] == EditDone(true, true) && Reconciled(cfg, sh, e.sh, rid, usd, tokens)
  {
    settle, confirm := SoloRuns.ReconcileAlone(cfg, clock, steps, c, rid, usd, tokens);
    Settlement.CountersRebuildable(cfg, clock, steps);
    hide Exec, RowsOf, Reconciled, SoloRuns.Settled, Guard.Edited, Guard.ReconcileSettlement, Settlement.CountersAreReplay;
    ReconciledIs(cfg, Exec(cfg, clock, steps).sh, rid, usd, tokens);
  }

  // The operator's other words: released or kept uncertain, on an uncertain request; on any other nothing changes.
  lemma ResolvedExactly(cfg: Config, clock: Time, steps: seq<Step>, c: Cid, rid: Rid, released: bool, usd: Option<nat>, tokens: Option<nat>)
    returns (k: nat)
    requires c !in Exec(cfg, clock, steps).calls
    ensures var sh := Exec(cfg, clock, steps).sh;
            var e := Exec(cfg, clock, steps + [Begin(c, EditOp(Resolve(rid, released, usd, tokens)))] + SoloRuns.Actions(c, k));
            var rows, rows' := RowsOf(sh.store), RowsOf(e.sh.store);
            && c in e.calls && e.calls[c].EditDone? && (e.calls[c].ok <==> rid in rows && rows[rid].state == Uncertain)
            && (!e.calls[c].ok ==> e.sh == sh)
            && rows'.Keys == rows.Keys && (forall other :: other in rows && other != rid ==> rows'[other] == rows[other])
            && (forall key :: key != TableKey ==> Read(e.sh.store, key) == Read(sh.store, key)) && e.sh.ledger == sh.ledger
            && (e.calls[c].ok ==>
                  && rows'[rid].state == (if released then Released else Uncertain) && rows'[rid].reconciledAt == Some(sh.clock)
                  && SameTerms(rows[rid], rows'[rid]) && RowLife.Figures(rows[rid], rows'[rid], usd, tokens)
                  && UncertainRequests(rows') == UncertainRequests(rows) - {rid})
  {
    var edit := Resolve(rid, released, usd, tokens);
    k := SoloRuns.EditAlone(cfg, clock, steps, c, edit);
    var sh := Exec(cfg, clock, steps).sh;
    RowLife.OnlyUncertainResolves(RowsOf(sh.store), rid, released, usd, tokens, sh.clock);
    if rid in RowsOf(sh.store) && RowsOf(sh.store)[rid].state == Uncertain {
      RowLife.ResolutionEffect(RowsOf(sh.store), rid, released, usd, tokens, sh.clock, Addr(KeyLane, "", Hour), Usd, 0);
    }
    EditedRows(sh.store, edit, sh.clock);
    hide Exec, RowsOf, EditRows, UncertainRequests;
  }

  lemma CountersRead(store: Store, after: Store)
    requires forall key :: key != TableKey ==> Read(after, key) == Read(store, key)
    ensures forall a, bucket :: CounterAt(after, a, bucket) == CounterAt(store, a, bucket)
  {
  }

  // --- the guard's methods -----------------------------------------------------------------------------------------

  // The ledger node a settlement of the guard appends is the event of the same bearer, request and amounts; a settled
  // request gets one only if no usage node of it exists.
  lemma GuardBooks(cfg: Config, g: Guard.Contents, s: Protocol.Settlement)
    requires Typed(g.projections)
    ensures var after := Guard.AfterSettling(cfg, g, s);
            var debited := if Marked(g.projections, s.rid) then g else g.(projections := Guard.SettledStore(cfg, g.projections, s));
            var actual := if Marked(g.projections, s.rid) then g.projections[MarkerKey(s.rid)].marker.actual else s.actual;
            after == if Bearer(s.caller) == "" || (Marked(g.projections, s.rid)
                                                   && exists id :: id in g.nodes && g.nodes[id].kind == "usage_ledger_event" && g.nodes[id].payload.Usage?
                                                                   && g.nodes[id].payload.event.requestId == s.rid)
                     then debited
                     else GraphState.AppendUsage(debited, Bearer(s.caller), GraphState.UsageEvent(s.rid, actual.usd, actual.tokens))
  {
    hide Guard.SettledStore, GraphState.AppendUsage;
  }
}
