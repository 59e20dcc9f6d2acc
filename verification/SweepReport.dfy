/** The sweeper's report among other workers. It counts the rows it means to change before it swaps the table and
    returns the counts whether or not the swap went through. */
module SweepReport {
  import opened Prelude
  import opened FiniteSums
  import opened Calendar
  import opened Reservations
  import opened ProjectionSwap
  import opened Protocol
  import Settlement
  import Admission

  // How many rows of a table an action changed.
  ghost function RowsChanged(before: map<Rid, Row>, after: map<Rid, Row>): int {
    Sum(before.Keys, rid => if rid in before && rid in after && after[rid] != before[rid] then 1 else 0)
  }

  ghost function Reported(rows: map<Rid, Row>, now: Time): int { CountUncertain(rows, now) + CountReleased(rows, now) }

  lemma {:induction false} SumOfTwo<K(!new)>(keys: set<K>, f: K -> int, g: K -> int, h: K -> int)
    requires forall k :: k in keys ==> h(k) == f(k) + g(k)
    ensures Sum(keys, h) == Sum(keys, f) + Sum(keys, g)
    decreases |keys|
  {
    if keys != {} {
      var k :| k in keys;
      SumRemove(keys, f, k);
      SumRemove(keys, g, k);
      SumRemove(keys, h, k);
      SumOfTwo(keys - {k}, f, g, h);
    }
  }

  // The counts are the number of rows the sweep rewrites.
  lemma ReportCountsRows(rows: map<Rid, Row>, now: Time)
    ensures RowsChanged(rows, Sweep(rows, now)) == Reported(rows, now)
  {
    var swept := Sweep(rows, now);
    SumOfTwo(rows.Keys, rid => if rid in rows && TurnsUncertain(rows[rid], now) then 1 else 0,
             rid => if rid in rows && TurnsReleased(rows[rid], now) then 1 else 0,
             rid => if rid in rows && rid in swept && swept[rid] != rows[rid] then 1 else 0);
  }

  lemma NothingChanged(rows: map<Rid, Row>)
    ensures RowsChanged(rows, rows) == 0
  {
    var zero := (rid: Rid) => 0;
    SumRestrict(rows.Keys, {}, zero);
    SumAgrees(rows.Keys, rid => if rid in rows && rid in rows && rows[rid] != rows[rid] then 1 else 0, zero);
  }

  // A sweeper at its swap, having read `seen`: whatever the other workers did since, it changes the rows it counted
  // if the swap finds the table it read, and no row otherwise.
  lemma SwapChanges(cfg: Config, sh: Shared, hist: Snapshot, at: Time, seen: Table, attempts: nat, f: bool)
    ensures var p := EditSwap(SweepStale(at), Some(seen), Table(Sweep(seen.rows, at), at), attempts);
            var o := Act(cfg, sh, hist, p, f);
            RowsChanged(RowsOf(sh.store), RowsOf(o.store)) == if Settlement.EditSwaps(sh, p) then Reported(seen.rows, at) else 0
  {
    var p := EditSwap(SweepStale(at), Some(seen), Table(Sweep(seen.rows, at), at), attempts);
    Settlement.StoreCases(cfg, sh, hist, p, f);
    hide Act, Sweep, Reported, RowsChanged;
    if Settlement.EditSwaps(sh, p) {
      Admission.TableOfWrite(sh.store, p.next);
      ReportCountsRows(seen.rows, at);
    } else {
      NothingChanged(RowsOf(sh.store));
    }
  }

  // --- a whole call ------------------------------------------------------------------------------------------------

  ghost predicate Acts(step: Step, c: Cid) { step.Run? && step.cid == c }

  // How many rows the actions of call `c` have changed since moment `i` of the run.
  ghost function OwnChanges(cfg: Config, clock: Time, steps: seq<Step>, i: nat, c: Cid): int {
    if |steps| <= i then 0
    else
      var n := |steps| - 1;
      OwnChanges(cfg, clock, steps[..n], i, c)
      + if Acts(steps[n], c) then RowsChanged(RowsOf(Exec(cfg, clock, steps[..n]).sh.store), RowsOf(Exec(cfg, clock, steps).sh.store)) else 0
  }

  // Whether one of its attempts found the table it read.
  ghost predicate Landed(cfg: Config, clock: Time, steps: seq<Step>, i: nat, c: Cid) {
    exists k :: i <= k < |steps| && Acts(steps[k], c) && Lands(Exec(cfg, clock, steps[..k]), c)
  }

  ghost predicate Lands(s: State, c: Cid) { c in s.calls && Settlement.EditSwaps(s.sh, s.calls[c]) }

  // Where a sweep that has read `seen` stands.
  ghost predicate Reporting(p: Prog, seen: map<Rid, Row>, at: Time, own: int, landed: bool) {
    match p
    case EditSwap(e, expected, next, _) =>
      && e == SweepStale(at) && expected.Some? && expected.value.rows == seen && next == Table(Sweep(seen, at), at)
      && Sweep(seen, at) != seen && own == 0 && !landed
    case EditDone(_, _) => own == (if landed then Reported(seen, at) else 0)
    case Lost => true
    case _ => false
  }

  lemma ReportingStep(cfg: Config, s: State, step: Step, c: Cid, seen: map<Rid, Row>, at: Time, own: int, landed: bool)
    requires c in s.calls && Reporting(s.calls[c], seen, at, own, landed)
    ensures var s' := Next(cfg, s, step);
            var now := if Acts(step, c) then RowsChanged(RowsOf(s.sh.store), RowsOf(s'.sh.store)) else 0;
            c in s'.calls && Reporting(s'.calls[c], seen, at, own + now, landed || (Acts(step, c) && Lands(s, c)))
  {
    hide Rise, RowsChanged, Reported, RowsOf, Sweep;
    if Acts(step, c) {
      var p := s.calls[c];
      if p.EditSwap? {
        SwapChanges(cfg, s.sh, History(s), at, p.expected.value, p.attempts, step.appendFails);
        hide ActReserve, ActSettle;
      } else {
        NothingChanged(RowsOf(s.sh.store));
      }
    } else {
      hide Act;
    }
  }

  lemma ReadBegins(cfg: Config, s: State, c: Cid, f: bool, at: Time)
    requires c in s.calls && s.calls[c] == EditRead(SweepStale(at))
    ensures var s' := Next(cfg, s, Run(c, f));
            c in s'.calls && s'.sh.store == s.sh.store && Reporting(s'.calls[c], RowsOf(s.sh.store), at, 0, false)
  {
    hide Rise, Reported, Sweep, ActReserve, ActSettle;
  }

  lemma LandedStep(cfg: Config, clock: Time, steps: seq<Step>, i: nat, c: Cid)
    requires i < |steps|
    ensures var n := |steps| - 1;
            Landed(cfg, clock, steps, i, c)
            <==> Landed(cfg, clock, steps[..n], i, c) || (Acts(steps[n], c) && Lands(Exec(cfg, clock, steps[..n]), c))
  {
    hide Exec, Lands;
    var n := |steps| - 1;
    if Landed(cfg, clock, steps, i, c) {
      var k :| i <= k < |steps| && Acts(steps[k], c) && Lands(Exec(cfg, clock, steps[..k]), c);
      if k < n { assert steps[..n][k] == steps[k] && steps[..n][..k] == steps[..k]; }
    }
    if Landed(cfg, clock, steps[..n], i, c) {
      var k :| i <= k < n && Acts(steps[..n][k], c) && Lands(Exec(cfg, clock, steps[..n][..k]), c);
      assert steps[..n][k] == steps[k] && steps[..n][..k] == steps[..k];
    }
  }

  lemma {:induction false} AlwaysReporting(cfg: Config, clock: Time, steps: seq<Step>, i: nat, c: Cid, at: Time)
    requires i < |steps| && Acts(steps[i], c)
    requires c in Exec(cfg, clock, steps[..i]).calls && Exec(cfg, clock, steps[..i]).calls[c] == EditRead(SweepStale(at))
    ensures c in Exec(cfg, clock, steps).calls
    ensures Reporting(Exec(cfg, clock, steps).calls[c], RowsOf(Exec(cfg, clock, steps[..i]).sh.store), at,
                      OwnChanges(cfg, clock, steps, i, c), Landed(cfg, clock, steps, i, c))
    decreases |steps|
  {
    var n := |steps| - 1;
    var s := Exec(cfg, clock, steps[..n]);
    assert Exec(cfg, clock, steps) == Next(cfg, s, steps[n]);
    LandedStep(cfg, clock, steps, i, c);
    assert n == i ==> !Landed(cfg, clock, steps[..n], i, c);
    hide Exec, Next, Landed, RowsOf, Reporting, RowsChanged;
    if n == i {
      ReadBegins(cfg, s, c, steps[i].appendFails, at);
      NothingChanged(RowsOf(s.sh.store));
      assert OwnChanges(cfg, clock, steps[..n], i, c) == 0;
      assert steps[i] == Run(c, steps[i].appendFails);
    } else {
      assert steps[..n][..i] == steps[..i];
      AlwaysReporting(cfg, clock, steps[..n], i, c, at);
      ReportingStep(cfg, s, steps[n], c, RowsOf(Exec(cfg, clock, steps[..i]).sh.store), at,
                    OwnChanges(cfg, clock, steps[..n], i, c), Landed(cfg, clock, steps[..n], i, c));
    }
  }

  // A sweep that read the table at moment `i` of a run and has returned since: whatever the other workers did, and
  // however many attempts it made, the counts it returns are the rows its own actions changed if and only if there was
  // nothing to sweep or one of its attempts found the table it read.
  lemma ReportTrueExactly(cfg: Config, clock: Time, steps: seq<Step>, i: nat, c: Cid, at: Time)
    requires i < |steps| && Acts(steps[i], c)
    requires c in Exec(cfg, clock, steps[..i]).calls && Exec(cfg, clock, steps[..i]).calls[c] == EditRead(SweepStale(at))
    requires c in Exec(cfg, clock, steps).calls && Exec(cfg, clock, steps).calls[c].EditDone?
    ensures var seen := RowsOf(Exec(cfg, clock, steps[..i]).sh.store);
            OwnChanges(cfg, clock, steps, i, c) == Reported(seen, at)
            <==> Sweep(seen, at) == seen || Landed(cfg, clock, steps, i, c)
  {
    AlwaysReporting(cfg, clock, steps, i, c, at);
    CountsZeroExactly(RowsOf(Exec(cfg, clock, steps[..i]).sh.store), at);
    hide Exec, RowsOf, OwnChanges, Landed, Sweep, CountUncertain, CountReleased;
  }
}
