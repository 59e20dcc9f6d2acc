/** What becomes of a row over its life: how long a reservation holds, what an abandoned request holds, and what an
    operator's resolution does to the queue and to the lanes. */
module RowLife {
  import opened Prelude
  import opened Calendar
  import opened Reservations
  import opened ProjectionSwap
  import opened Protocol
  import Settlement
  import Admission
  import AdmissionBound

  // --- a row nobody names ----------------------------------------------------------------------------------------

  // A swap that settles the request or edits its row by name, or a sweep that runs ahead of the clock.
  ghost predicate Touches(s: State, step: Step, rid: Rid) {
    && step.Run? && step.cid in s.calls
    && var p := s.calls[step.cid];
       || (Settlement.SettleSwaps(s.sh, p) && p.s.rid == rid)
       || (Settlement.EditSwaps(s.sh, p) && if p.edit.SweepStale? then p.edit.now > s.sh.clock else p.edit.rid == rid)
  }

  ghost predicate LeftAlone(cfg: Config, clock: Time, steps: seq<Step>, i: nat, rid: Rid) {
    forall n :: i <= n < |steps| ==> !Touches(Exec(cfg, clock, steps[..n]), steps[n], rid)
  }

  predicate Lapsed(r: Row, now: Time) { r.state == Reserved && Expired(r, now) }

  // What may have become of an open row by now: nothing, unless it has lapsed, or was being forwarded and a sweep
  // has found it past its deadline.
  ghost predicate Stands(rows: map<Rid, Row>, rid: Rid, r: Row, now: Time) {
    if Lapsed(r, now) then rid in rows ==> rows[rid] == r || rows[rid].state == Released
    else
      && rid in rows
      && (rows[rid] == r || (TurnsUncertain(r, now) && rows[rid] == r.(state := Uncertain, updatedAt := rows[rid].updatedAt)))
  }

  lemma EditStands(rows: map<Rid, Row>, e: Edit, t: Time, rid: Rid, r: Row, now: Time)
    requires Stands(rows, rid, r, now) && r.state != Settled && r.state != Released
    requires EditRows(rows, e, t).Some? && if e.SweepStale? then e.now <= now else e.rid != rid
    ensures Stands(EditRows(rows, e, t).value, rid, r, now)
  {
  }

  lemma RunStands(cfg: Config, s: State, c: Cid, f: bool, rid: Rid, r: Row)
    requires Settlement.WellFormed(s) && Admission.FreshIds(s) && AdmissionBound.EditsMade(s) && c in s.calls
    requires rid in s.admitted && r.state != Settled && r.state != Released && !Touches(s, Run(c, f), rid)
    requires Stands(RowsOf(s.sh.store), rid, r, s.sh.clock)
    ensures Stands(RowsOf(Next(cfg, s, Run(c, f)).sh.store), rid, r, s.sh.clock)
  {
    var p := s.calls[c];
    Settlement.StoreCases(cfg, s.sh, History(s), p, f);
    hide Act, Admit, Rise, SettleWrites, SettleExpects, Matches, Checks, RowsOf, EditRows;
    if Settlement.AdmitSwaps(cfg, s.sh, p) {
      Admission.AdmitRows(cfg, s.sh, p);
    } else if Settlement.SettleSwaps(s.sh, p) {
      Admission.SettleTable(s.sh.store, p.table, p.s, p.observed);
      SameRows(s.sh.store, s.sh.store + SettleWrites(p.table, p.s, p.observed));
      hide Stands;
      if HasReservation(p.table, p.s) { OtherRowStands(RowsOf(s.sh.store), p.s.rid, SettledRow(RowsOf(s.sh.store)[p.s.rid], p.s), rid, r, s.sh.clock); }
    } else if Settlement.EditSwaps(s.sh, p) {
      hide Stands;
      Admission.TableOfWrite(s.sh.store, p.next);
      Admission.ExpectedRows(s.sh.store, p.expected);
      assert AdmissionBound.EditMade(p);
      var t: Time :| EditRows(Admission.SeenRows(p.expected), p.edit, t) == Some(p.next.rows);
      EditStands(RowsOf(s.sh.store), p.edit, t, rid, r, s.sh.clock);
    }
  }

  lemma SameRows(store: Store, store': Store)
    ensures TableOf(store) == TableOf(store') ==> RowsOf(store) == RowsOf(store')
  {
  }

  lemma OtherRowStands(rows: map<Rid, Row>, other: Rid, row: Row, rid: Rid, r: Row, now: Time)
    requires Stands(rows, rid, r, now) && other != rid
    ensures Stands(rows[other := row], rid, r, now)
  {
  }

  lemma SafeMeans(cfg: Config, s: State)
    requires Admission.Safe(cfg, s)
    ensures Settlement.WellFormed(s) && Admission.FreshIds(s) && RowsOf(s.sh.store).Keys <= s.admitted
  {
    hide Settlement.WellFormed, Admission.FreshIds, Admission.NoFuture, Admission.AllObliged, Admission.Bounded, RowsOf;
  }

  // An open row of an admitted request that nobody names stands, whatever the other calls of the run do.
  lemma {:induction false} AlwaysStands(cfg: Config, clock: Time, steps: seq<Step>, i: nat, rid: Rid, r: Row)
    requires Admission.DistinctReserves(steps) && i <= |steps| && LeftAlone(cfg, clock, steps, i, rid)
    requires rid in RowsOf(Exec(cfg, clock, steps[..i]).sh.store) && RowsOf(Exec(cfg, clock, steps[..i]).sh.store)[rid] == r
    requires r.state != Settled && r.state != Released
    ensures Stands(RowsOf(Exec(cfg, clock, steps).sh.store), rid, r, Exec(cfg, clock, steps).sh.clock)
    ensures rid in Exec(cfg, clock, steps).admitted
    decreases |steps|
  {
    hide Next, Admission.Safe, Settlement.WellFormed, Admission.FreshIds, AdmissionBound.EditsMade, Touches, RowsOf;
    if i == |steps| {
      hide Exec;
      assert steps[..i] == steps;
      Admission.AlwaysSafe(cfg, clock, steps);
      SafeMeans(cfg, Exec(cfg, clock, steps));
    } else {
      hide Stands;
      var n := |steps| - 1;
      var s := Exec(cfg, clock, steps[..n]);
      assert Exec(cfg, clock, steps) == Next(cfg, s, steps[n]);
      hide Exec;
      assert steps[..n][..i] == steps[..i];
      forall k | i <= k < n ensures !Touches(Exec(cfg, clock, steps[..n][..k]), steps[..n][k], rid) {
        assert steps[..n][..k] == steps[..k];
      }
      AlwaysStands(cfg, clock, steps[..n], i, rid, r);
      Admission.AlwaysSafe(cfg, clock, steps[..n]);
      SafeMeans(cfg, s);
      AdmissionBound.EditsAlwaysMade(cfg, clock, steps[..n]);
      assert !Touches(s, steps[n], rid);
      StandsStep(cfg, s, steps[n], rid, r);
    }
  }

  lemma StandsStep(cfg: Config, s: State, step: Step, rid: Rid, r: Row)
    requires Settlement.WellFormed(s) && Admission.FreshIds(s) && AdmissionBound.EditsMade(s)
    requires rid in s.admitted && r.state != Settled && r.state != Released && !Touches(s, step, rid)
    requires Stands(RowsOf(s.sh.store), rid, r, s.sh.clock)
    ensures var s' := Next(cfg, s, step); Stands(RowsOf(s'.sh.store), rid, r, s'.sh.clock) && rid in s'.admitted
  {
    hide Act, Rise, RowsOf, Settlement.WellFormed, Admission.FreshIds, AdmissionBound.EditsMade, Touches;
    if step.Run? && step.cid in s.calls {
      hide Stands;
      RunStands(cfg, s, step.cid, step.appendFails, rid, r);
    }
  }

  // What a request holds back in a lane.
  ghost function Hold(sh: Shared, rid: Rid, a: Addr, m: Metric): nat {
    if rid in RowsOf(sh.store) then HoldOf(RowsOf(sh.store)[rid], a, m, sh.clock) else 0
  }

  // Over every run with fresh ids: a reservation that nobody settles or edits is neither dropped nor altered by the
  // other calls, sweeps included, up to its deadline; it holds its estimate in each of its lanes until then and
  // nothing afterwards.
  lemma ReservationHoldsUntilDeadline(cfg: Config, clock: Time, steps: seq<Step>, i: nat, rid: Rid, r: Row, a: Addr, m: Metric)
    requires Admission.DistinctReserves(steps) && i <= |steps| && LeftAlone(cfg, clock, steps, i, rid)
    requires rid in RowsOf(Exec(cfg, clock, steps[..i]).sh.store) && RowsOf(Exec(cfg, clock, steps[..i]).sh.store)[rid] == r
    requires r.state == Reserved
    ensures var sh := Exec(cfg, clock, steps).sh;
            && (!Expired(r, sh.clock) ==> rid in RowsOf(sh.store) && RowsOf(sh.store)[rid] == r)
            && Hold(sh, rid, a, m) == if a in r.lanes && !Expired(r, sh.clock) then Amount(r.estimate, m) else 0
  {
    AlwaysStands(cfg, clock, steps, i, rid, r);
    hide Exec;
  }

  // A request that is being forwarded, or is uncertain, and whose worker is lost never lapses: over every run with
  // fresh ids in which nobody names it, it keeps holding its estimate, swept or not, at every later moment.
  lemma AbandonedKeepsHolding(cfg: Config, clock: Time, steps: seq<Step>, i: nat, rid: Rid, r: Row, a: Addr, m: Metric)
    requires Admission.DistinctReserves(steps) && i <= |steps| && LeftAlone(cfg, clock, steps, i, rid)
    requires rid in RowsOf(Exec(cfg, clock, steps[..i]).sh.store) && RowsOf(Exec(cfg, clock, steps[..i]).sh.store)[rid] == r
    requires r.state == Forwarding || r.state == Streaming || r.state == Uncertain
    ensures var sh := Exec(cfg, clock, steps).sh;
            && rid in RowsOf(sh.store)
            && (RowsOf(sh.store)[rid] == r || (RowsOf(sh.store)[rid].state == Uncertain && Expired(r, sh.clock)))
            && Hold(sh, rid, a, m) == if a in r.lanes then Amount(r.estimate, m) else 0
  {
    AlwaysStands(cfg, clock, steps, i, rid, r);
    hide Exec;
  }

  // --- updates ----------------------------------------------------------------------------------------------------

  // Given figures replace what a row has, missing ones leave it.
  predicate Figures(r: Row, r': Row, usd: Option<nat>, tokens: Option<nat>) {
    && r'.actualUsd == (if usd.Some? then usd else r.actualUsd)
    && r'.actualTokens == (if tokens.Some? then tokens else r.actualTokens)
  }

  // An update gives the row the state and figures it names, whatever they are, and keeps what it was admitted with; it
  // touches no other row; the request is then on the queue of uncertain requests if and only if it was made uncertain
  // and has not been reconciled; and it holds its estimate unless it was closed, or is a reservation past its deadline.
  lemma UpdateEffect(rows: map<Rid, Row>, rid: Rid, state: RowState, usd: Option<nat>, tokens: Option<nat>, now: Time,
                     a: Addr, m: Metric, t: Time)
    ensures rid !in rows ==> EditRows(rows, Edit.Update(rid, state, usd, tokens), now) == None
    ensures rid in rows ==>
              var next := EditRows(rows, Edit.Update(rid, state, usd, tokens), now);
              && next.Some? && next.value.Keys == rows.Keys
              && (forall other :: other in rows && other != rid ==> next.value[other] == rows[other])
              && var r, r' := rows[rid], next.value[rid];
                 && r'.state == state && r'.updatedAt == Some(now) && SameTerms(r, r')
                 && Figures(r, r', usd, tokens) && r'.settledAt == r.settledAt && r'.reconciledAt == r.reconciledAt
                 && UncertainRequests(next.value) - {rid} == UncertainRequests(rows) - {rid}
                 && (rid in UncertainRequests(next.value) <==> state == Uncertain && r.reconciledAt.None?)
                 && HoldOf(r', a, m, t)
                    == if a !in r.lanes || state == Settled || state == Released then 0
                       else if state == Reserved && r.expiresAt.Some? && r.expiresAt.value < t then 0
                       else Amount(r.estimate, m)
  {
  }

  // --- reconciliation ------------------------------------------------------------------------------------------------

  // An operator's word takes exactly that request off the queue and touches no other row. Released gives its hold
  // back on every lane; kept uncertain goes on holding it, off the queue.
  lemma ResolutionEffect(rows: map<Rid, Row>, rid: Rid, released: bool, usd: Option<nat>, tokens: Option<nat>, now: Time,
                         a: Addr, m: Metric, t: Time)
    requires rid in rows && rows[rid].state == Uncertain
    ensures var next := EditRows(rows, Resolve(rid, released, usd, tokens), now);
            && next.Some? && next.value.Keys == rows.Keys
            && (forall other :: other in rows && other != rid ==> next.value[other] == rows[other])
            && UncertainRequests(next.value) == UncertainRequests(rows) - {rid}
            && Held(next.value, a, m, t) == Held(rows, a, m, t) - (if released then HoldOf(rows[rid], a, m, t) else 0)
            && var r, r' := rows[rid], next.value[rid];
               && r'.state == (if released then Released else Uncertain) && r'.reconciledAt == Some(now) && SameTerms(r, r')
               && Figures(r, r', usd, tokens) && r'.settledAt == r.settledAt && r'.updatedAt == r.updatedAt
  {
    var next := EditRows(rows, Resolve(rid, released, usd, tokens), now).value;
    HeldUpdate(rows, rid, next[rid], a, m, t);
    hide Held;
  }

  // Only an uncertain request can be resolved; one that was kept uncertain before still is.
  lemma OnlyUncertainResolves(rows: map<Rid, Row>, rid: Rid, released: bool, usd: Option<nat>, tokens: Option<nat>, now: Time)
    ensures EditRows(rows, Resolve(rid, released, usd, tokens), now).Some? <==> rid in rows && rows[rid].state == Uncertain
  {
  }

  // Confirming a settled request closes its row for good: it is off the queue and holds nothing at any time.
  lemma ConfirmationEffect(rows: map<Rid, Row>, rid: Rid, known: Row, actual: Charge, now: Time, a: Addr, m: Metric, t: Time)
    ensures var next := EditRows(rows, Confirm(rid, known, actual), now);
            && next.Some? && next.value.Keys == rows.Keys + {rid}
            && (forall other :: other in rows && other != rid ==> next.value[other] == rows[other])
            && UncertainRequests(next.value) == UncertainRequests(rows) - {rid}
            && Held(next.value, a, m, t) == Held(rows, a, m, t) - (if rid in rows then HoldOf(rows[rid], a, m, t) else 0)
            && var r, r' := if rid in rows then rows[rid] else known, next.value[rid];
               && r'.state == Settled && r'.reconciledAt == Some(now) && SameTerms(r, r')
               && Figures(r, r', Some(actual.usd), Some(actual.tokens)) && r'.settledAt == r.settledAt && r'.updatedAt == r.updatedAt
  {
    var next := EditRows(rows, Confirm(rid, known, actual), now).value;
    HeldUpdate(rows, rid, next[rid], a, m, t);
    hide Held;
  }
}
