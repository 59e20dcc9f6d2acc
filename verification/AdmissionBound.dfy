/** When the admission bound is tight. A lane's load rises outside an admission in exactly two ways: a settlement
    debits more than the reservation it closes was holding back, or an update revives a reservation that no
    longer counted. A lane on which neither happens never exceeds its policies. */
module AdmissionBound {
  import opened Prelude
  import opened Calendar
  import opened Reservations
  import opened ProjectionSwap
  import opened Protocol
  import Settlement
  import opened Admission
  import opened Charging

  // --- pending edits ---------------------------------------------------------------------------------------------

  // What an edit call is about to write is its edit applied to the rows it compares with.
  ghost predicate EditMade(p: Prog) {
    p.EditSwap? ==>
      && (p.expected.None? ==> p.edit.Confirm?)
      && exists t: Time :: EditRows(SeenRows(p.expected), p.edit, t) == Some(p.next.rows)
  }

  lemma ActEditMade(cfg: Config, sh: Shared, hist: Snapshot, p: Prog, f: bool)
    requires EditMade(p)
    ensures EditMade(Act(cfg, sh, hist, p, f).prog)
  {
    hide Fits, Checks, LanesToDebit, Admit, Prune, Matches, SettleExpects, SettleWrites, Bucket, EditRows;
    var p' := Act(cfg, sh, hist, p, f).prog;
    if p.EditRead? && p'.EditSwap? {
      assert SeenRows(p'.expected) == RowsOf(sh.store);
      assert EditRows(SeenRows(p'.expected), p'.edit, sh.clock) == Some(p'.next.rows);
    }
  }

  ghost predicate EditsMade(s: State) { forall c :: c in s.calls ==> EditMade(s.calls[c]) }

  lemma {:induction false} EditsAlwaysMade(cfg: Config, clock: Time, steps: seq<Step>)
    ensures EditsMade(Exec(cfg, clock, steps))
  {
    if steps != [] {
      var n := |steps| - 1;
      EditsAlwaysMade(cfg, clock, steps[..n]);
      var s := Exec(cfg, clock, steps[..n]);
      hide Rise;
      if steps[n].Run? && steps[n].cid in s.calls {
        hide Act, EditMade;
        ActEditMade(cfg, s.sh, History(s), s.calls[steps[n].cid], steps[n].appendFails);
      }
    }
  }

  // --- exactly when a load rises ---------------------------------------------------------------------------------

  // Whether an edit makes a row count again.
  ghost predicate Revives(rows: map<Rid, Row>, e: Edit, a: Addr, m: Metric, now: Time) {
    && e.Update? && e.rid in rows
    && !Live(rows[e.rid], now) && Live(rows[e.rid].(state := e.state), now)
    && a in rows[e.rid].lanes && Amount(rows[e.rid].estimate, m) > 0
  }

  lemma EditRaises(rows: map<Rid, Row>, e: Edit, t: Time, a: Addr, m: Metric, now: Time)
    requires EditRows(rows, e, t).Some?
    ensures Held(EditRows(rows, e, t).value, a, m, now) > Held(rows, a, m, now) <==> Revives(rows, e, a, m, now)
  {
    var next := EditRows(rows, e, t).value;
    match e
    case SweepStale(at) => HeldBelow(next, rows, a, m, now, now);
    case _ =>
      hide Held;
      HeldUpdate(rows, e.rid, next[e.rid], a, m, now);
  }

  // What a settlement takes from a lane now, and what it gives back.
  ghost function DebitNow(cfg: Config, sh: Shared, p: Prog, a: Addr, m: Metric): nat
    requires p.SettleCounters?
  {
    if Debited(cfg, p.table, p.s, a) && Bucket(p.s.now, a.period) == Bucket(sh.clock, a.period) then Amount(p.s.actual, m) else 0
  }

  ghost function GivenBack(sh: Shared, p: Prog, a: Addr, m: Metric): nat
    requires p.SettleCounters?
  {
    if HasReservation(p.table, p.s) && p.s.rid in RowsOf(sh.store) then HoldOf(RowsOf(sh.store)[p.s.rid], a, m, sh.clock) else 0
  }

  lemma SettleUsed(cfg: Config, store: Store, p: Prog, a: Addr, m: Metric, clock: Time)
    requires p.SettleCounters? && Settlement.Shaped(p) && Settlement.LanesCovered(cfg, p) && p.todo == []
    requires Matches(store, SettleExpects(p.table, p.s, p.observed))
    ensures Get(Used(store + SettleWrites(p.table, p.s, p.observed), a, clock), m)
            == Get(Used(store, a, clock), m) + DebitNow(cfg, Shared(clock, store, []), p, a, m)
  {
    assert a in DebitedLanes(p.observed) <==> a in LanesToDebit(cfg, p.table, p.s);
    DebitsAre(cfg, p.table, p.s, a);
    hide Bucket, LanesToDebit, Debited;
    Settlement.SettleCounters(store, p.table, p.s, p.observed, a, Bucket(clock, a.period));
    hide SettleWrites, SettleExpects, Matches, CounterAt, DebitedLanes;
  }

  lemma SettleHeld(store: Store, p: Prog, a: Addr, m: Metric, clock: Time)
    requires p.SettleCounters? && Settlement.Shaped(p) && Matches(store, SettleExpects(p.table, p.s, p.observed))
    ensures Held(RowsOf(store + SettleWrites(p.table, p.s, p.observed)), a, m, clock)
            == Held(RowsOf(store), a, m, clock) - GivenBack(Shared(clock, store, []), p, a, m)
  {
    SettleTable(store, p.table, p.s, p.observed);
    hide SettleWrites, SettleExpects, Matches;
    if HasReservation(p.table, p.s) {
      HeldUpdate(RowsOf(store), p.s.rid, SettledRow(RowsOf(store)[p.s.rid], p.s), a, m, clock);
    }
    hide Held;
  }

  // The balance of a settlement: each lane's load moves by the debit less the hold of the reservation it closes.
  lemma SettleBalance(cfg: Config, sh: Shared, hist: Snapshot, p: Prog, f: bool, a: Addr, m: Metric)
    requires Settlement.Shaped(p) && Settlement.LanesCovered(cfg, p) && Settlement.SettleSwaps(sh, p)
    ensures var o := Act(cfg, sh, hist, p, f);
            Load(Shared(sh.clock, o.store, o.ledger), a, m) == Load(sh, a, m) + DebitNow(cfg, sh, p, a, m) - GivenBack(sh, p, a, m)
  {
    Settlement.StoreCases(cfg, sh, hist, p, f);
    SettleUsed(cfg, sh.store, p, a, m, sh.clock);
    SettleHeld(sh.store, p, a, m, sh.clock);
    hide Act, SettleWrites, SettleExpects, Matches, Held, Used, RowsOf, LanesToDebit, Bucket;
  }

  // The guards under which a step other than an admission raises a lane's load.
  ghost predicate Raises(cfg: Config, s: State, step: Step, a: Addr, m: Metric) {
    && step.Run? && step.cid in s.calls
    && var p := s.calls[step.cid];
       || (Settlement.SettleSwaps(s.sh, p) && DebitNow(cfg, s.sh, p, a, m) > GivenBack(s.sh, p, a, m))
       || (Settlement.EditSwaps(s.sh, p) && Revives(RowsOf(s.sh.store), p.edit, a, m, s.sh.clock))
  }

  lemma SettleRiseExactly(cfg: Config, sh: Shared, hist: Snapshot, p: Prog, f: bool, a: Addr, m: Metric)
    requires Settlement.Shaped(p) && Settlement.LanesCovered(cfg, p) && Settlement.SettleSwaps(sh, p)
    ensures var o := Act(cfg, sh, hist, p, f);
            Rise(sh, Shared(sh.clock, o.store, o.ledger), a, m) > 0 <==> DebitNow(cfg, sh, p, a, m) > GivenBack(sh, p, a, m)
  {
    SettleBalance(cfg, sh, hist, p, f, a, m);
    hide Act, SettleWrites, SettleExpects, Matches, Load, DebitNow, GivenBack;
  }

  lemma EditRiseExactly(cfg: Config, sh: Shared, hist: Snapshot, p: Prog, f: bool, a: Addr, m: Metric)
    requires EditMade(p) && Settlement.EditSwaps(sh, p)
    ensures var o := Act(cfg, sh, hist, p, f);
            Rise(sh, Shared(sh.clock, o.store, o.ledger), a, m) > 0 <==> Revives(RowsOf(sh.store), p.edit, a, m, sh.clock)
  {
    Settlement.StoreCases(cfg, sh, hist, p, f);
    TableOfWrite(sh.store, p.next);
    ExpectedRows(sh.store, p.expected);
    var t: Time :| EditRows(SeenRows(p.expected), p.edit, t) == Some(p.next.rows);
    EditRaises(SeenRows(p.expected), p.edit, t, a, m, sh.clock);
    hide Act, EditRows, Held, Revives, RowsOf, Bucket;
  }

  lemma RiseExactly(cfg: Config, s: State, c: Cid, f: bool, a: Addr, m: Metric)
    requires Settlement.WellFormed(s) && EditsMade(s) && c in s.calls && !Settlement.AdmitSwaps(cfg, s.sh, s.calls[c])
    requires Settlement.LanesCovered(cfg, s.calls[c])
    ensures Rise(s.sh, Next(cfg, s, Run(c, f)).sh, a, m) > 0 <==> Raises(cfg, s, Run(c, f), a, m)
  {
    var p := s.calls[c];
    Settlement.StoreCases(cfg, s.sh, History(s), p, f);
    hide Act, Load, EditMade, Revives, DebitNow, GivenBack, Settlement.LanesCovered, SettleWrites, Admit;
    if Settlement.SettleSwaps(s.sh, p) {
      hide Settlement.SettleSwaps;
      SettleRiseExactly(cfg, s.sh, History(s), p, f, a, m);
    } else if Settlement.EditSwaps(s.sh, p) {
      assert EditMade(p);
      hide Settlement.EditSwaps;
      EditRiseExactly(cfg, s.sh, History(s), p, f, a, m);
    } else {
      SameLoad(s.sh, Next(cfg, s, Run(c, f)).sh, a, m);
    }
  }

  lemma SameLoad(sh: Shared, after: Shared, a: Addr, m: Metric)
    requires after.store == sh.store && after.clock == sh.clock
    ensures Load(after, a, m) == Load(sh, a, m)
  {
  }

  // --- the bound ---------------------------------------------------------------------------------------------------

  // No step of the run raises this lane.
  ghost predicate Quiet(cfg: Config, clock: Time, steps: seq<Step>, a: Addr, m: Metric) {
    forall n :: 0 <= n < |steps| ==> !Raises(cfg, Exec(cfg, clock, steps[..n]), steps[n], a, m)
  }

  lemma QuietPrefix(cfg: Config, clock: Time, steps: seq<Step>, a: Addr, m: Metric)
    requires Quiet(cfg, clock, steps, a, m) && steps != []
    ensures Quiet(cfg, clock, steps[..|steps| - 1], a, m)
    ensures !Raises(cfg, Exec(cfg, clock, steps[..|steps| - 1]), steps[|steps| - 1], a, m)
  {
    hide Exec, Raises;
    var n := |steps| - 1;
    forall k | 0 <= k < n ensures !Raises(cfg, Exec(cfg, clock, steps[..n][..k]), steps[..n][k], a, m) {
      assert steps[..n][..k] == steps[..k];
    }
  }

  lemma NothingAddedStep(cfg: Config, s: State, step: Step, a: Addr, m: Metric)
    requires Settlement.WellFormed(s) && EditsMade(s) && !Raises(cfg, s, step, a, m) && At(s.over, a, m) == 0
    requires forall c :: c in s.calls ==> Settlement.LanesCovered(cfg, s.calls[c])
    ensures At(Next(cfg, s, step).over, a, m) == 0
  {
    hide Raises, Settlement.LanesCovered, EditsMade, Settlement.WellFormed, Rise;
    if step.Run? && step.cid in s.calls {
      var p := s.calls[step.cid];
      Settlement.StoreCases(cfg, s.sh, History(s), p, step.appendFails);
      hide Act, Admit, Settlement.SettleSwaps, Settlement.EditSwaps, Settlement.AdmitSwaps;
      if !Settlement.AdmitSwaps(cfg, s.sh, p) {
        RiseExactly(cfg, s, step.cid, step.appendFails, a, m);
        RaisedBy(s.over, s.sh, Next(cfg, s, step).sh, a, m);
      }
    }
  }

  lemma {:induction false} NothingAdded(cfg: Config, clock: Time, steps: seq<Step>, a: Addr, m: Metric)
    requires Quiet(cfg, clock, steps, a, m)
    ensures At(Exec(cfg, clock, steps).over, a, m) == 0
  {
    if steps != [] {
      hide Next, Quiet, Raises, Settlement.CountersAreReplay, Settlement.LanesCovered, EditsMade, Settlement.WellFormed;
      var before := steps[..|steps| - 1];
      QuietPrefix(cfg, clock, steps, a, m);
      NothingAdded(cfg, clock, before, a, m);
      Settlement.CountersRebuildable(cfg, clock, before);
      Settlement.LanesAlwaysCovered(cfg, clock, before);
      EditsAlwaysMade(cfg, clock, before);
      NothingAddedStep(cfg, Exec(cfg, clock, before), steps[|steps| - 1], a, m);
    }
  }

  // The admission bound: over every run with fresh request ids, a lane that no settlement or update raises stays
  // within each limit of each of its policies, in every period it passes through.
  lemma AdmissionBound(cfg: Config, clock: Time, steps: seq<Step>, lane: Lane, subject: string, policy: Policy, m: Metric)
    requires DistinctReserves(steps) && HasPolicy(cfg, lane, subject, policy) && Limit(policy, m).Some?
    requires Quiet(cfg, clock, steps, Addr(lane, subject, policy.period), m)
    ensures Load(Exec(cfg, clock, steps).sh, Addr(lane, subject, policy.period), m) <= Limit(policy, m).value
  {
    AlwaysSafe(cfg, clock, steps);
    NothingAdded(cfg, clock, steps, Addr(lane, subject, policy.period), m);
    hide Load, Exec, Quiet, Known, FreshIds, NoFuture, AllObliged, Settlement.WellFormed;
    assert Bounded(cfg, Exec(cfg, clock, steps).sh, Exec(cfg, clock, steps).over);
  }

  // --- orderly runs --------------------------------------------------------------------------------------------------

  predicate Within(actual: Charge, estimate: Charge) { actual.usd <= estimate.usd && actual.tokens <= estimate.tokens }

  // Settlements close reservations that still count and cost no more than estimated; updates touch reservations
  // that still count, or close them.
  ghost predicate OrderlyStep(cfg: Config, s: State, step: Step) {
    step.Run? && step.cid in s.calls ==>
      var p := s.calls[step.cid];
      var rows := RowsOf(s.sh.store);
      && (Settlement.SettleSwaps(s.sh, p) ==>
            && HasReservation(p.table, p.s) && p.s.rid in rows && Live(rows[p.s.rid], s.sh.clock)
            && Within(p.s.actual, rows[p.s.rid].estimate)
            && (rows[p.s.rid].lanes == [] ==> forall a :: !Charged(cfg, p.s.caller, a)))
      && (Settlement.EditSwaps(s.sh, p) && p.edit.Update? && p.edit.rid in rows ==>
            Live(rows[p.edit.rid], s.sh.clock) || p.edit.state == Settled || p.edit.state == Released)
  }

  ghost predicate Orderly(cfg: Config, clock: Time, steps: seq<Step>) {
    forall n :: 0 <= n < |steps| ==> OrderlyStep(cfg, Exec(cfg, clock, steps[..n]), steps[n])
  }

  lemma OrderlyNeverRaises(cfg: Config, s: State, step: Step, a: Addr, m: Metric)
    requires Settlement.WellFormed(s) && OrderlyStep(cfg, s, step)
    ensures !Raises(cfg, s, step, a, m)
  {
    hide Bucket, Charged;
    if step.Run? && step.cid in s.calls {
      var p := s.calls[step.cid];
      if Settlement.SettleSwaps(s.sh, p) {
        Settlement.SettleClosesRow(s.sh.store, p.table, p.s, p.observed);
        hide Matches, SettleExpects, SettleWrites;
      }
    }
  }

  // Fixed policies, fresh ids, a clock that never goes back, actual costs within the estimates, settlements and
  // updates on live reservations only: then no interleaving, no retry, no crash and no period rollover takes any
  // lane over any limit.
  lemma OrderlyRunsStayBounded(cfg: Config, clock: Time, steps: seq<Step>, lane: Lane, subject: string, policy: Policy, m: Metric)
    requires DistinctReserves(steps) && Orderly(cfg, clock, steps)
    requires HasPolicy(cfg, lane, subject, policy) && Limit(policy, m).Some?
    ensures Load(Exec(cfg, clock, steps).sh, Addr(lane, subject, policy.period), m) <= Limit(policy, m).value
  {
    var a := Addr(lane, subject, policy.period);
    hide Raises, OrderlyStep, Load, Next;
    forall n | 0 <= n < |steps| ensures !Raises(cfg, Exec(cfg, clock, steps[..n]), steps[n], a, m) {
      Settlement.CountersRebuildable(cfg, clock, steps[..n]);
      OrderlyNeverRaises(cfg, Exec(cfg, clock, steps[..n]), steps[n], a, m);
    }
    AdmissionBound(cfg, clock, steps, lane, subject, policy, m);
  }
}
