/** How calls end. A reserve or settle call gives up only after the configured number of lost swaps, or because a limit
    comparison refused it; a table rewrite gives up after its own number; and a call is lost without an answer only by a
    crash, or by a failing append while the ledger is being repaired. */
module CallEnds {
  import opened Prelude
  import opened Calendar
  import opened Reservations
  import opened ProjectionSwap
  import opened Protocol
  import Settlement

  ghost predicate Acts(s: State, step: Step, c: Cid) { step.Run? && step.cid == c && c in s.calls }

  // The call's admission or settlement swap does not find what it expects.
  ghost predicate LosesSwap(cfg: Config, s: State, step: Step, c: Cid) {
    && Acts(s, step, c)
    && var p := s.calls[c];
       || (p.ReserveCheck? && p.done >= |Checks(cfg, p.req.caller)| && !Settlement.AdmitSwaps(cfg, s.sh, p))
       || (p.SettleCounters? && p.todo == [] && !Settlement.SettleSwaps(s.sh, p))
  }

  ghost predicate LosesEdit(s: State, step: Step, c: Cid) { Acts(s, step, c) && s.calls[c].EditSwap? && !Settlement.EditSwaps(s.sh, s.calls[c]) }

  // A comparison of the call finds a limit exceeded.
  ghost predicate Refuses(cfg: Config, s: State, step: Step, c: Cid) {
    && Acts(s, step, c)
    && var p := s.calls[c];
       && p.ReserveCheck? && p.done < |Checks(cfg, p.req.caller)| && p.used.Some?
       && exists m :: !Fits(Get(p.used.value, m), if p.seen.table.Some? then p.seen.table.value.rows else map[],
                            Checks(cfg, p.req.caller)[p.done], m, p.req.estimate, s.sh.clock)
  }

  // How often that has happened to a call.
  datatype Losses = Losses(swaps: nat, edits: nat, refusals: nat)

  ghost function More(cfg: Config, s: State, step: Step, c: Cid, l: Losses): Losses {
    Losses(l.swaps + (if LosesSwap(cfg, s, step, c) then 1 else 0), l.edits + (if LosesEdit(s, step, c) then 1 else 0),
           l.refusals + if Refuses(cfg, s, step, c) then 1 else 0)
  }

  ghost function LossesOf(cfg: Config, clock: Time, steps: seq<Step>, c: Cid): Losses {
    if steps == [] then Losses(0, 0, 0)
    else
      var n := |steps| - 1;
      More(cfg, Exec(cfg, clock, steps[..n]), steps[n], c, LossesOf(cfg, clock, steps[..n], c))
  }

  // An update is tried once; sweeps and reconciliations have retries of their own.
  function EditBudget(cfg: Config, e: Edit): nat { if e.Update? then 1 else cfg.sweepRetries + 1 }

  // What is left of a call's attempts makes up, with what it has lost, what it started with.
  ghost predicate Budgeted(cfg: Config, p: Prog, l: Losses) {
    match p
    case ReserveRead(_, _, attempts) => l.swaps + attempts == cfg.reserveRetries && l.refusals == 0
    case ReserveCheck(_, _, attempts, _, _, _) => l.swaps + attempts == cfg.reserveRetries && l.refusals == 0
    case ReserveDone(_, ok) => if ok then l.swaps <= cfg.reserveRetries && l.refusals == 0
                               else (l.refusals == 1 && l.swaps <= cfg.reserveRetries) || (l.refusals == 0 && l.swaps == cfg.reserveRetries + 1)
    case SettleRead(_, attempts, _) => l.swaps + attempts == cfg.settleRetries && l.edits == 0
    case SettleMarker(_, attempts, _, _) => l.swaps + attempts == cfg.settleRetries && l.edits == 0
    case SettleCounters(_, attempts, _, _, _, _) => l.swaps + attempts == cfg.settleRetries && l.edits == 0
    case SettleDone(_, ok, _) => l.swaps == cfg.settleRetries + 1 || (ok && l.swaps <= cfg.settleRetries)
    case ReconcileRead(_, _, _) => l.swaps == 0 && l.edits == 0
    case EditRead(_) => l.edits == 0
    case EditSwap(e, _, _, attempts) => l.edits + attempts + 1 == EditBudget(cfg, e)
    case EditDone(ok, _) => if ok then l.edits <= cfg.sweepRetries else l.edits == 0 || l.edits == 1 || l.edits == cfg.sweepRetries + 1
    case Lost => true
    case _ => l.swaps <= cfg.settleRetries && l.edits == 0
  }

  lemma StartBudgeted(cfg: Config, op: Op, now: Time)
    ensures Budgeted(cfg, Start(cfg, op, now), Losses(0, 0, 0))
  {
  }

  lemma ReserveBudgeted(cfg: Config, s: State, c: Cid, f: bool, l: Losses)
    requires c in s.calls && (s.calls[c].ReserveRead? || s.calls[c].ReserveCheck?) && Budgeted(cfg, s.calls[c], l)
    ensures Budgeted(cfg, ActReserve(cfg, s.sh, History(s), s.calls[c]).prog, More(cfg, s, Run(c, f), c, l))
  {
    hide Fits, Checks, Admit, Prune, Used, RowsOf, MarkedIds;
  }

  lemma SettleBudgeted(cfg: Config, s: State, c: Cid, f: bool, l: Losses)
    requires c in s.calls && Budgeted(cfg, s.calls[c], l)
    requires var p := s.calls[c]; p.SettleRead? || p.SettleMarker? || p.SettleCounters? || p.SettleLedger? || p.RepairScan? || p.RepairAppend?
    ensures Budgeted(cfg, ActSettle(cfg, s.sh, s.calls[c], f).prog, More(cfg, s, Run(c, f), c, l))
  {
    hide LanesToDebit, Matches, SettleExpects, SettleWrites, Bucket, TableOf, LedgerSubject, Fits, Checks;
  }

  lemma EditBudgeted(cfg: Config, s: State, c: Cid, f: bool, l: Losses)
    requires c in s.calls && (s.calls[c].ReconcileRead? || s.calls[c].EditRead? || s.calls[c].EditSwap?) && Budgeted(cfg, s.calls[c], l)
    ensures Budgeted(cfg, ActEdit(cfg, s.sh, s.calls[c]).prog, More(cfg, s, Run(c, f), c, l))
  {
    hide EditRows, RowsOf, Fits, Checks;
  }

  lemma BudgetStep(cfg: Config, s: State, step: Step, c: Cid, l: Losses)
    requires c in s.calls ==> Budgeted(cfg, s.calls[c], l)
    requires c !in s.calls ==> l == Losses(0, 0, 0)
    ensures var s' := Next(cfg, s, step);
            && (c in s'.calls ==> Budgeted(cfg, s'.calls[c], More(cfg, s, step, c, l)))
            && (c !in s'.calls ==> More(cfg, s, step, c, l) == Losses(0, 0, 0))
  {
    hide Rise, Fits, Checks, Budgeted, ActReserve, ActSettle, ActEdit;
    if Acts(s, step, c) {
      var p := s.calls[c];
      if p.ReserveRead? || p.ReserveCheck? {
        ReserveBudgeted(cfg, s, c, step.appendFails, l);
      } else if p.ReconcileRead? || p.EditRead? || p.EditSwap? {
        EditBudgeted(cfg, s, c, step.appendFails, l);
      } else if !(p.ReserveDone? || p.SettleDone? || p.EditDone? || p.Lost?) {
        SettleBudgeted(cfg, s, c, step.appendFails, l);
      }
    } else if step.Begin? && step.cid == c && c !in s.calls {
      StartBudgeted(cfg, step.op, s.sh.clock);
    } else if step.Crash? && step.cid == c {
      assert Budgeted(cfg, Lost, l) by { LostIsBudgeted(cfg, l); }
    }
  }

  lemma LostIsBudgeted(cfg: Config, l: Losses)
    ensures Budgeted(cfg, Lost, l)
  {
  }

  lemma {:induction false} AlwaysBudgeted(cfg: Config, clock: Time, steps: seq<Step>, c: Cid)
    ensures var s, l := Exec(cfg, clock, steps), LossesOf(cfg, clock, steps, c);
            (c in s.calls ==> Budgeted(cfg, s.calls[c], l)) && (c !in s.calls ==> l == Losses(0, 0, 0))
  {
    if steps != [] {
      hide Next, Budgeted, More;
      var n := |steps| - 1;
      AlwaysBudgeted(cfg, clock, steps[..n], c);
      BudgetStep(cfg, Exec(cfg, clock, steps[..n]), steps[n], c, LossesOf(cfg, clock, steps[..n], c));
    }
  }

  // In every run a reserve call answers False for one of two reasons, and not for both: a comparison found a limit
  // exceeded, or it lost its swap once more often than it may retry. A settlement answers False for the second alone.
  lemma FalseHasAReason(cfg: Config, clock: Time, steps: seq<Step>, c: Cid)
    requires c in Exec(cfg, clock, steps).calls
    ensures var p, l := Exec(cfg, clock, steps).calls[c], LossesOf(cfg, clock, steps, c);
            && (p.ReserveDone? && !p.ok ==> (l.refusals > 0 <==> l.swaps <= cfg.reserveRetries) && l.swaps <= cfg.reserveRetries + 1)
            && (p.ReserveDone? && p.ok ==> l.refusals == 0 && l.swaps <= cfg.reserveRetries)
            && (p.SettleDone? && !p.ok ==> l.swaps == cfg.settleRetries + 1)
            && (p.EditDone? ==> l.edits <= cfg.sweepRetries + 1)
  {
    AlwaysBudgeted(cfg, clock, steps, c);
    hide Exec, LossesOf;
  }

  // A call that is under way is lost by a crash, or by a failing append while it repairs the ledger, and by nothing else:
  // in particular a settlement whose own append fails still answers.
  lemma LostExactly(cfg: Config, s: State, step: Step, c: Cid)
    requires c in s.calls && !s.calls[c].Lost?
    ensures Next(cfg, s, step).calls[c].Lost? <==> step == Crash(c) || (step == Run(c, true) && s.calls[c].RepairAppend?)
  {
    hide Rise, LanesToDebit, Matches, SettleExpects, SettleWrites, Bucket, TableOf, LedgerSubject, Fits, Checks, EditRows, Admit, Prune;
  }

  lemma SwallowedAppend(cfg: Config, s: State, c: Cid)
    requires c in s.calls && s.calls[c].SettleLedger? && s.calls[c].confirm.None?
    ensures var s' := Next(cfg, s, Run(c, true)); s'.sh == s.sh && s'.calls[c] == SettleDone(s.calls[c].s.rid, true, false)
  {
    hide Rise, LedgerSubject;
  }
}
