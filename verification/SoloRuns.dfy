/** What a call does when it runs without interruption: the outcome of its whole program, as one step on the store.
    The guard's methods are proved against the same outcomes, so a method that runs alone is a run of the protocol.
    Every table a run leaves has rows. */
module SoloRuns {
  import opened Prelude
  import opened Calendar
  import opened Reservations
  import opened ProjectionSwap
  import opened Protocol
  import Settlement
  import Guard
  import UsageLedger

  // --- tables have rows ---------------------------------------------------------------------------------------------

  ghost predicate HasRows(store: Store) { TableOf(store).Some? ==> TableOf(store).value.rows != map[] }

  ghost predicate WritesRows(p: Prog) { p.EditSwap? ==> p.next.rows != map[] }

  ghost predicate RowsEverywhere(s: State) { HasRows(s.sh.store) && forall c :: c in s.calls ==> WritesRows(s.calls[c]) }

  lemma EditKeepsRows(rows: map<Rid, Row>, e: Edit, now: Time)
    requires EditRows(rows, e, now).Some?
    ensures EditRows(rows, e, now).value != map[]
  {
    var next := EditRows(rows, e, now).value;
    match e
    case SweepStale(at) => assert rows == map[] ==> Sweep(rows, at) == map[];
    case _ => assert e.rid in next;
  }

  lemma ActWritesRows(cfg: Config, sh: Shared, hist: Snapshot, p: Prog, f: bool)
    requires WritesRows(p)
    ensures WritesRows(Act(cfg, sh, hist, p, f).prog)
  {
    hide ActReserve, ActSettle, EditRows;
    if p.EditRead? && EditRows(RowsOf(sh.store), p.edit, sh.clock).Some? { EditKeepsRows(RowsOf(sh.store), p.edit, sh.clock); }
    if p.ReserveRead? || p.ReserveCheck? { ActReserveGoesOn(cfg, sh, hist, p); }
    if p.SettleRead? || p.SettleMarker? || p.SettleCounters? || p.SettleLedger? || p.RepairScan? || p.RepairAppend? { ActSettleGoesOn(cfg, sh, p, f); }
  }

  lemma ActReserveGoesOn(cfg: Config, sh: Shared, hist: Snapshot, p: Prog)
    requires p.ReserveRead? || p.ReserveCheck?
    ensures !ActReserve(cfg, sh, hist, p).prog.EditSwap?
  {
    hide Fits, Checks, Admit, Prune, Used;
  }

  lemma ActSettleGoesOn(cfg: Config, sh: Shared, p: Prog, f: bool)
    requires p.SettleRead? || p.SettleMarker? || p.SettleCounters? || p.SettleLedger? || p.RepairScan? || p.RepairAppend?
    ensures !ActSettle(cfg, sh, p, f).prog.EditSwap?
  {
    hide LanesToDebit, Matches, SettleExpects, SettleWrites, Bucket, TableOf, LedgerSubject;
  }

  lemma SettleKeepsRows(store: Store, table: Option<Table>, s: Protocol.Settlement, observed: map<Key, Option<Value>>)
    requires Settlement.Observed(s, observed) && HasRows(store)
    ensures HasRows(store + SettleWrites(table, s, observed))
  {
    hide Bucket;
    var store' := store + SettleWrites(table, s, observed);
    if HasReservation(table, s) {
      assert store'[TableKey] == TableWrites(table, s)[TableKey];
      assert s.rid in TableOf(store').value.rows;
    } else {
      assert TableKey in store' <==> TableKey in store;
    }
  }

  lemma RowsStep(cfg: Config, s: State, step: Step)
    requires Settlement.WellFormed(s) && RowsEverywhere(s)
    ensures RowsEverywhere(Next(cfg, s, step))
  {
    assert WritesRows(Lost);
    hide Rise, Act, WritesRows, HasRows, Admit, SettleWrites, SettleExpects, Matches, Checks;
    if step.Run? && step.cid in s.calls {
      var p := s.calls[step.cid];
      ActWritesRows(cfg, s.sh, History(s), p, step.appendFails);
      Settlement.StoreCases(cfg, s.sh, History(s), p, step.appendFails);
      if Settlement.AdmitSwaps(cfg, s.sh, p) {
        AdmitHasRows(s.sh.store, p.seen.table, p.req, p.started, cfg);
      } else if Settlement.SettleSwaps(s.sh, p) {
        SettleKeepsRows(s.sh.store, p.table, p.s, p.observed);
      } else if Settlement.EditSwaps(s.sh, p) {
        EditHasRows(s.sh.store, p);
      }
    } else if step.Begin? {
      BegunWritesRows(cfg, s, step);
    }
  }

  lemma BegunWritesRows(cfg: Config, s: State, step: Step)
    requires step.Begin?
    ensures WritesRows(Start(cfg, step.op, s.sh.clock))
  {
  }

  lemma AdmitHasRows(store: Store, table: Option<Table>, req: Request, started: Time, cfg: Config)
    ensures HasRows(store[TableKey := TableValue(Admit(table, req, started, cfg))])
  {
    hide Checks, Prune;
    assert req.rid in Admit(table, req, started, cfg).rows;
  }

  lemma EditHasRows(store: Store, p: Prog)
    requires p.EditSwap? && WritesRows(p)
    ensures HasRows(store[TableKey := TableValue(p.next)])
  {
  }

  // In every reachable state an existing reservation table has rows, so comparing it as if an empty one were absent
  // loses nothing.
  lemma {:induction false} TablesHaveRows(cfg: Config, clock: Time, steps: seq<Step>)
    ensures RowsEverywhere(Exec(cfg, clock, steps))
  {
    if steps != [] {
      var n := |steps| - 1;
      TablesHaveRows(cfg, clock, steps[..n]);
      Settlement.CountersRebuildable(cfg, clock, steps[..n]);
      hide Next, RowsEverywhere, Settlement.WellFormed, Settlement.CountersAreReplay;
      RowsStep(cfg, Exec(cfg, clock, steps[..n]), steps[n]);
    }
  }

  // --- one call without interruption ------------------------------------------------------------------------------

  // The state after `k` more actions of call `c`.
  ghost function Solo(cfg: Config, s: State, c: Cid, k: nat): State
    decreases k
  {
    if k == 0 then s else Solo(cfg, Next(cfg, s, Run(c, false)), c, k - 1)
  }

  function Actions(c: Cid, k: nat): seq<Step> { if k == 0 then [] else [Run(c, false)] + Actions(c, k - 1) }

  lemma {:induction false} SoloPlus(cfg: Config, s: State, c: Cid, a: nat, b: nat)
    ensures Solo(cfg, s, c, a + b) == Solo(cfg, Solo(cfg, s, c, a), c, b)
    decreases a
  {
    hide Next;
    if a > 0 { SoloPlus(cfg, Next(cfg, s, Run(c, false)), c, a - 1, b); }
  }

  lemma {:induction false} ExecSolo(cfg: Config, clock: Time, steps: seq<Step>, c: Cid, k: nat)
    ensures Exec(cfg, clock, steps + Actions(c, k)) == Solo(cfg, Exec(cfg, clock, steps), c, k)
    decreases k
  {
    hide Next, Exec;
    if k == 0 {
      assert steps + Actions(c, 0) == steps;
    } else {
      ExecAppend(cfg, clock, steps, Run(c, false));
      ExecSolo(cfg, clock, steps + [Run(c, false)], c, k - 1);
      assert steps + Actions(c, k) == steps + [Run(c, false)] + Actions(c, k - 1);
    }
  }

  // Call `c` stands at `p`, and nothing anybody shares has changed since `s`.
  ghost predicate MovedOn(s: State, now: State, c: Cid, p: Prog) {
    now.sh == s.sh && now.admitted == s.admitted && c in now.calls && now.calls[c] == p
  }

  lemma Move(cfg: Config, s: State, now: State, c: Cid, p: Prog, next: Prog)
    requires MovedOn(s, now, c, p) && Act(cfg, s.sh, History(s), p, false) == Local(s.sh, next)
    ensures MovedOn(s, Next(cfg, now, Run(c, false)), c, next)
    ensures Solo(cfg, now, c, 1) == Next(cfg, now, Run(c, false))
  {
    hide Act, Rise, MarkedIds;
  }

  // An action that changes the store or the ledger.
  lemma Change(cfg: Config, s: State, now: State, c: Cid, p: Prog, o: Outcome)
    requires MovedOn(s, now, c, p) && Act(cfg, s.sh, History(s), p, false) == o
    ensures var next := Next(cfg, now, Run(c, false));
            next.sh == Shared(s.sh.clock, o.store, o.ledger) && c in next.calls && next.calls[c] == o.prog
    ensures Solo(cfg, now, c, 1) == Next(cfg, now, Run(c, false))
  {
    hide Act, Rise, MarkedIds;
  }

  // --- reserve -------------------------------------------------------------------------------------------------------

  ghost predicate FitsFrom(cfg: Config, sh: Shared, req: Request, done: nat) {
    forall i, m :: done <= i < |Checks(cfg, req.caller)| ==> FitsAt(cfg, sh, req, i, m)
  }

  ghost predicate FitsAt(cfg: Config, sh: Shared, req: Request, i: nat, m: Metric)
    requires i < |Checks(cfg, req.caller)|
  {
    var check := Checks(cfg, req.caller)[i];
    Fits(Get(Used(sh.store, check.addr, sh.clock), m), RowsOf(sh.store), check, m, req.estimate, sh.clock)
  }

  // Reading the usage and comparing, one policy.
  lemma OneCheck(cfg: Config, s: State, p: Prog)
    requires p.ReserveCheck? && p.used.None? && p.seen.table == TableOf(s.sh.store) && p.done < |Checks(cfg, p.req.caller)|
    ensures var used := p.(used := Some(Used(s.sh.store, Checks(cfg, p.req.caller)[p.done].addr, s.sh.clock)));
            && Act(cfg, s.sh, History(s), p, false) == Local(s.sh, used)
            && Act(cfg, s.sh, History(s), used, false)
               == Local(s.sh, if forall m :: FitsAt(cfg, s.sh, p.req, p.done, m) then p.(done := p.done + 1) else ReserveDone(p.req.rid, false))
  {
    hide Fits, Checks, Used, TableOf, ActSettle, ActEdit;
    var check, used := Checks(cfg, p.req.caller)[p.done], Used(s.sh.store, Checks(cfg, p.req.caller)[p.done].addr, s.sh.clock);
    assert RowsOf(s.sh.store) == if p.seen.table.Some? then p.seen.table.value.rows else map[];
    assert forall m :: FitsAt(cfg, s.sh, p.req, p.done, m)
                       <==> Fits(Get(used, m), RowsOf(s.sh.store), check, m, p.req.estimate, s.sh.clock);
    hide RowsOf, FitsAt;
  }

  lemma {:induction false} ChecksSolo(cfg: Config, s: State, now: State, c: Cid, p: Prog) returns (k: nat)
    requires p.ReserveCheck? && p.used.None? && p.seen.table == TableOf(s.sh.store) && p.done <= |Checks(cfg, p.req.caller)|
    requires MovedOn(s, now, c, p)
    ensures MovedOn(s, Solo(cfg, now, c, k), c,
                    if FitsFrom(cfg, s.sh, p.req, p.done) then p.(done := |Checks(cfg, p.req.caller)|) else ReserveDone(p.req.rid, false))
    decreases |Checks(cfg, p.req.caller)| - p.done
  {
    hide Act, Checks, FitsAt, MovedOn, Next, TableOf;
    if p.done == |Checks(cfg, p.req.caller)| {
      k := 0;
    } else {
      OneCheck(cfg, s, p);
      var used := p.(used := Some(Used(s.sh.store, Checks(cfg, p.req.caller)[p.done].addr, s.sh.clock)));
      var one := Next(cfg, now, Run(c, false));
      var two := Next(cfg, one, Run(c, false));
      Move(cfg, s, now, c, p, used);
      if forall m :: FitsAt(cfg, s.sh, p.req, p.done, m) {
        Move(cfg, s, one, c, used, p.(done := p.done + 1));
        var rest := ChecksSolo(cfg, s, two, c, p.(done := p.done + 1));
        assert FitsFrom(cfg, s.sh, p.req, p.done) <==> FitsFrom(cfg, s.sh, p.req, p.done + 1);
        k := rest + 2;
        assert Solo(cfg, now, c, k) == Solo(cfg, one, c, k - 1) == Solo(cfg, two, c, rest);
      } else {
        Move(cfg, s, one, c, used, ReserveDone(p.req.rid, false));
        k := 2;
        assert Solo(cfg, now, c, 2) == Solo(cfg, one, c, 1) == Solo(cfg, two, c, 0);
      }
    }
  }

  lemma FitsAll(cfg: Config, sh: Shared, req: Request)
    ensures FitsFrom(cfg, sh, req, 0) <==> Guard.AllFit(cfg, sh.store, req, sh.clock)
  {
    hide Fits, Used, RowsOf, Checks;
    var checks := Checks(cfg, req.caller);
    if FitsFrom(cfg, sh, req, 0) {
      forall c, m | c in checks
        ensures Fits(Get(Used(sh.store, c.addr, sh.clock), m), RowsOf(sh.store), c, m, req.estimate, sh.clock)
      {
        var i :| 0 <= i < |checks| && checks[i] == c;
        assert FitsAt(cfg, sh, req, i, m);
      }
    }
  }

  lemma ReadMoves(cfg: Config, s: State, req: Request, started: Time, attempts: nat)
    ensures Act(cfg, s.sh, History(s), ReserveRead(req, started, attempts), false)
            == Local(s.sh, if req.rid in Prune(RowsOf(s.sh.store)) then ReserveDone(req.rid, true)
                           else ReserveCheck(req, started, attempts, Snapshot(TableOf(s.sh.store), s.admitted, MarkedIds(s.sh.store)), 0, None))
  {
    hide Prune, RowsOf, TableOf, MarkedIds, ActSettle, ActEdit;
  }

  lemma SwapMoves(cfg: Config, s: State, p: Prog)
    requires p.ReserveCheck? && p.done == |Checks(cfg, p.req.caller)| && p.seen.table == TableOf(s.sh.store) && Typed(s.sh.store)
    ensures Act(cfg, s.sh, History(s), p, false)
            == if HasRows(s.sh.store) then
                 Outcome(s.sh.store[TableKey := TableValue(Admit(p.seen.table, p.req, p.started, cfg))], s.sh.ledger, ReserveDone(p.req.rid, true), {p.req.rid})
               else if p.attempts > 0 then Local(s.sh, ReserveRead(p.req, p.started, p.attempts - 1))
               else Local(s.sh, ReserveDone(p.req.rid, false))
  {
    hide Fits, Checks, Admit, MarkedIds, ActSettle, ActEdit;
  }

  // How a reserve call ends.
  ghost predicate ReserveEnds(cfg: Config, s: State, e: State, c: Cid, req: Request, started: Time) {
    var store := s.sh.store;
    var held := req.rid in Prune(RowsOf(store));
    var fits := Guard.AllFit(cfg, store, req, s.sh.clock) && HasRows(store);
    && c in e.calls && e.calls[c] == ReserveDone(req.rid, held || fits)
    && e.sh == s.sh.(store := if !held && fits then store[TableKey := TableValue(Admit(TableOf(store), req, started, cfg))] else store)
  }

  lemma {:induction false} ReserveSolo(cfg: Config, s: State, now: State, c: Cid, req: Request, started: Time, attempts: nat) returns (k: nat)
    requires Typed(s.sh.store) && MovedOn(s, now, c, ReserveRead(req, started, attempts))
    ensures ReserveEnds(cfg, s, Solo(cfg, now, c, k), c, req, started)
    decreases attempts
  {
    hide Act, Checks, FitsFrom, Next, TableOf, Typed, Prune, RowsOf, HasRows, Admit, Guard.AllFit;
    ReadMoves(cfg, s, req, started, attempts);
    FitsAll(cfg, s.sh, req);
    var one := Next(cfg, now, Run(c, false));
    if req.rid in Prune(RowsOf(s.sh.store)) {
      Move(cfg, s, now, c, ReserveRead(req, started, attempts), ReserveDone(req.rid, true));
      k := 1;
    } else {
      var p := ReserveCheck(req, started, attempts, Snapshot(TableOf(s.sh.store), s.admitted, MarkedIds(s.sh.store)), 0, None);
      Move(cfg, s, now, c, ReserveRead(req, started, attempts), p);
      var rest := ChecksSolo(cfg, s, one, c, p);
      assert Solo(cfg, now, c, 1 + rest) == Solo(cfg, one, c, rest);
      if FitsFrom(cfg, s.sh, req, 0) {
        var q := p.(done := |Checks(cfg, req.caller)|);
        var last := Solo(cfg, one, c, rest);
        SwapMoves(cfg, s, q);
        SoloPlus(cfg, now, c, 1 + rest, 1);
        if HasRows(s.sh.store) {
          Change(cfg, s, last, c, q, Act(cfg, s.sh, History(s), q, false));
          k := rest + 2;
        } else if attempts > 0 {
          Move(cfg, s, last, c, q, ReserveRead(req, started, attempts - 1));
          var again := ReserveSolo(cfg, s, Next(cfg, last, Run(c, false)), c, req, started, attempts - 1);
          SoloPlus(cfg, now, c, 2 + rest, again);
          k := 2 + rest + again;
        } else {
          Move(cfg, s, last, c, q, ReserveDone(req.rid, false));
          k := rest + 2;
        }
      } else {
        k := 1 + rest;
      }
    }
  }

  // In every run: a reserve call that then runs alone has the outcome the guard's method is proved to have.
  lemma ReserveAlone(cfg: Config, clock: Time, steps: seq<Step>, c: Cid, req: Request) returns (k: nat)
    requires c !in Exec(cfg, clock, steps).calls
    ensures var sh := Exec(cfg, clock, steps).sh;
            var e := Exec(cfg, clock, steps + [Begin(c, ReserveOp(req))] + Actions(c, k));
            var held := req.rid in Prune(RowsOf(sh.store));
            && e.sh == sh.(store := Guard.AfterReserving(cfg, sh.store, req, sh.clock))
            && c in e.calls && e.calls[c] == ReserveDone(req.rid, held || Guard.AllFit(cfg, sh.store, req, sh.clock))
            && (Guard.Reserves(cfg, sh.store, req, sh.clock) <==> Guard.AllFit(cfg, sh.store, req, sh.clock))
  {
    TablesHaveRows(cfg, clock, steps);
    Settlement.CountersRebuildable(cfg, clock, steps);
    ExecAppend(cfg, clock, steps, Begin(c, ReserveOp(req)));
    var s := Exec(cfg, clock, steps);
    hide Exec, Prune, RowsOf, Guard.AllFit, Admit, Typed;
    var now := Next(cfg, s, Begin(c, ReserveOp(req)));
    k := ReserveSolo(cfg, s, now, c, req, s.sh.clock, cfg.reserveRetries);
    ExecSolo(cfg, clock, steps + [Begin(c, ReserveOp(req))], c, k);
  }

  // --- settle ----------------------------------------------------------------------------------------------------------

  function MarkerOf(store: Store, rid: Rid): Marker {
    if MarkerKey(rid) in store && store[MarkerKey(rid)].MarkerValue? then store[MarkerKey(rid)].marker
    else Marker(Charge(0, 0), Charge(0, 0), 0, {})
  }

  // Where a settlement stands that has read the counters of its first `j` lanes.
  function Counting(cfg: Config, store: Store, sv: Protocol.Settlement, attempts: nat, confirm: Option<Row>, j: nat): Prog
    requires j <= |LanesToDebit(cfg, TableOf(store), sv)|
  {
    var lanes := LanesToDebit(cfg, TableOf(store), sv);
    SettleCounters(sv, attempts, confirm, TableOf(store), lanes[j..], Guard.ReadLanes(store, lanes[..j], sv.now))
  }

  lemma SettleReads(cfg: Config, s: State, sv: Protocol.Settlement, attempts: nat, confirm: Option<Row>)
    requires Typed(s.sh.store)
    ensures var table := TableOf(s.sh.store);
            && Act(cfg, s.sh, History(s), SettleRead(sv, attempts, confirm), false) == Local(s.sh, SettleMarker(sv, attempts, confirm, table))
            && Act(cfg, s.sh, History(s), SettleMarker(sv, attempts, confirm, table), false)
               == Local(s.sh, Looked(cfg, s.sh.store, sv, attempts, confirm))
  {
    var lanes := LanesToDebit(cfg, TableOf(s.sh.store), sv);
    assert lanes[..0] == [] && lanes[0..] == lanes;
    assert Guard.ReadLanes(s.sh.store, [], sv.now) == map[];
    hide Guard.ReadLanes, TableOf, LanesToDebit, MarkedIds, ActReserve, ActEdit;
  }

  // Reading one more lane: the counter is read unless the lane came before.
  lemma OneMoreRead(store: Store, lanes: seq<Addr>, j: nat, now: Time)
    requires j < |lanes|
    ensures var observed, k := Guard.ReadLanes(store, lanes[..j], now), CounterKey(lanes[j], Bucket(now, lanes[j].period));
            Guard.ReadLanes(store, lanes[..j + 1], now) == if k in observed then observed else observed[k := Read(store, k)]
  {
    hide Bucket;
    Guard.ReadLanesAre(store, lanes[..j], now);
    assert lanes[..j + 1][..j] == lanes[..j];
    var observed, k := Guard.ReadLanes(store, lanes[..j], now), CounterKey(lanes[j], Bucket(now, lanes[j].period));
    assert k in observed ==> observed == observed[k := Read(store, k)];
  }

  lemma CounterMove(cfg: Config, s: State, sv: Protocol.Settlement, attempts: nat, confirm: Option<Row>, j: nat)
    requires j < |LanesToDebit(cfg, TableOf(s.sh.store), sv)|
    ensures Act(cfg, s.sh, History(s), Counting(cfg, s.sh.store, sv, attempts, confirm, j), false)
            == Local(s.sh, Counting(cfg, s.sh.store, sv, attempts, confirm, j + 1))
  {
    hide LanesToDebit, TableOf, MarkedIds, ActReserve, ActEdit, Bucket, Guard.ReadLanes, Matches, SettleExpects, SettleWrites;
    var lanes := LanesToDebit(cfg, TableOf(s.sh.store), sv);
    OneMoreRead(s.sh.store, lanes, j, sv.now);
    assert lanes[j..][1..] == lanes[j + 1..] && lanes[j..][0] == lanes[j];
  }

  lemma {:induction false} CountersSolo(cfg: Config, s: State, now: State, c: Cid, sv: Protocol.Settlement, attempts: nat, confirm: Option<Row>, j: nat)
    returns (k: nat)
    requires j <= |LanesToDebit(cfg, TableOf(s.sh.store), sv)|
    requires MovedOn(s, now, c, Counting(cfg, s.sh.store, sv, attempts, confirm, j))
    ensures MovedOn(s, Solo(cfg, now, c, k), c, Counting(cfg, s.sh.store, sv, attempts, confirm, |LanesToDebit(cfg, TableOf(s.sh.store), sv)|))
    decreases |LanesToDebit(cfg, TableOf(s.sh.store), sv)| - j
  {
    hide Act, LanesToDebit, TableOf, MovedOn, Next, Counting;
    if j == |LanesToDebit(cfg, TableOf(s.sh.store), sv)| {
      k := 0;
    } else {
      CounterMove(cfg, s, sv, attempts, confirm, j);
      Move(cfg, s, now, c, Counting(cfg, s.sh.store, sv, attempts, confirm, j), Counting(cfg, s.sh.store, sv, attempts, confirm, j + 1));
      k := CountersSolo(cfg, s, Next(cfg, now, Run(c, false)), c, sv, attempts, confirm, j + 1);
      k := k + 1;
    }
  }

  function Booking(sv: Protocol.Settlement, actual: Charge): seq<Entry> {
    if LedgerSubject(sv) == "" then [] else [Entry(LedgerSubject(sv), sv.rid, actual)]
  }

  // What a settlement alone leaves of the shared state, as the guard's method does with the ledger's nodes.
  ghost function Settled(cfg: Config, sh: Shared, sv: Protocol.Settlement): Shared
  {
    if !Marked(sh.store, sv.rid) then Shared(sh.clock, Guard.SettledStore(cfg, sh.store, sv), sh.ledger + Booking(sv, sv.actual))
    else if exists i :: 0 <= i < |sh.ledger| && sh.ledger[i].rid == sv.rid then sh
    else sh.(ledger := sh.ledger + Booking(sv, MarkerOf(sh.store, sv.rid).actual))
  }

  ghost predicate SettleEnds(cfg: Config, s: State, e: State, c: Cid, sv: Protocol.Settlement, confirm: Option<Row>) {
    && e.sh == Settled(cfg, s.sh, sv) && c in e.calls
    && (e.calls[c] == Finish(sv, confirm, true) || e.calls[c] == Finish(sv, confirm, false))
  }

  lemma CommitMoves(cfg: Config, s: State, sv: Protocol.Settlement, attempts: nat, confirm: Option<Row>)
    requires Typed(s.sh.store) && !Marked(s.sh.store, sv.rid)
    ensures var p := Counting(cfg, s.sh.store, sv, attempts, confirm, |LanesToDebit(cfg, TableOf(s.sh.store), sv)|);
            Act(cfg, s.sh, History(s), p, false)
            == Outcome(Guard.SettledStore(cfg, s.sh.store, sv), s.sh.ledger,
                       if LedgerSubject(sv) != "" then SettleLedger(sv, confirm) else Finish(sv, confirm, false), {})
  {
    hide LanesToDebit, TableOf, MarkedIds, ActReserve, ActEdit, Bucket, Matches, SettleExpects, SettleWrites, Guard.ReadLanes, LedgerSubject, Finish, Typed;
    Guard.SettleMatches(cfg, s.sh.store, sv);
    var lanes := LanesToDebit(cfg, TableOf(s.sh.store), sv);
    assert lanes[..|lanes|] == lanes && lanes[|lanes|..] == [];
  }

  lemma BookMoves(cfg: Config, sh: Shared, hist: Snapshot, sv: Protocol.Settlement, confirm: Option<Row>)
    requires LedgerSubject(sv) != ""
    ensures Act(cfg, sh, hist, SettleLedger(sv, confirm), false)
            == Outcome(sh.store, sh.ledger + Booking(sv, sv.actual), Finish(sv, confirm, true), {})
  {
    hide ActReserve, ActEdit, LedgerSubject, Finish;
  }

  lemma {:induction false} CommitSolo(cfg: Config, s: State, now: State, c: Cid, sv: Protocol.Settlement, attempts: nat, confirm: Option<Row>)
    returns (k: nat)
    requires Typed(s.sh.store) && !Marked(s.sh.store, sv.rid)
    requires MovedOn(s, now, c, Counting(cfg, s.sh.store, sv, attempts, confirm, 0))
    ensures SettleEnds(cfg, s, Solo(cfg, now, c, k), c, sv, confirm)
  {
    hide Act, LanesToDebit, TableOf, Next, Typed, Guard.SettledStore, LedgerSubject, Finish, Counting;
    var rest := CountersSolo(cfg, s, now, c, sv, attempts, confirm, 0);
    var p := Counting(cfg, s.sh.store, sv, attempts, confirm, |LanesToDebit(cfg, TableOf(s.sh.store), sv)|);
    var last := Solo(cfg, now, c, rest);
    CommitMoves(cfg, s, sv, attempts, confirm);
    Change(cfg, s, last, c, p, Act(cfg, s.sh, History(s), p, false));
    SoloPlus(cfg, now, c, rest, 1);
    var next := Next(cfg, last, Run(c, false));
    if LedgerSubject(sv) != "" {
      BookMoves(cfg, next.sh, History(next), sv, confirm);
      Change(cfg, next, next, c, SettleLedger(sv, confirm), Act(cfg, next.sh, History(next), SettleLedger(sv, confirm), false));
      SoloPlus(cfg, now, c, rest + 1, 1);
      k := rest + 2;
    } else {
      assert s.sh.ledger + [] == s.sh.ledger;
      k := rest + 1;
    }
  }

  lemma RepairMoves(cfg: Config, s: State, sv: Protocol.Settlement, confirm: Option<Row>, marker: Marker)
    ensures Act(cfg, s.sh, History(s), RepairScan(sv, confirm, marker), false)
            == Local(s.sh, if exists i :: 0 <= i < |s.sh.ledger| && s.sh.ledger[i].rid == sv.rid then Finish(sv, confirm, true)
                           else if LedgerSubject(sv) != "" then RepairAppend(sv, confirm, marker) else Finish(sv, confirm, false))
    ensures LedgerSubject(sv) != "" ==>
              Act(cfg, s.sh, History(s), RepairAppend(sv, confirm, marker), false)
              == Outcome(s.sh.store, s.sh.ledger + Booking(sv, marker.actual), Finish(sv, confirm, true), {})
  {
    hide ActReserve, ActEdit, LedgerSubject, Finish, MarkedIds;
  }

  lemma RepairSolo(cfg: Config, s: State, now: State, c: Cid, sv: Protocol.Settlement, confirm: Option<Row>) returns (k: nat)
    requires Typed(s.sh.store) && Marked(s.sh.store, sv.rid)
    requires MovedOn(s, now, c, RepairScan(sv, confirm, MarkerOf(s.sh.store, sv.rid)))
    ensures SettleEnds(cfg, s, Solo(cfg, now, c, k), c, sv, confirm)
  {
    hide Act, Next, LedgerSubject, Finish;
    var marker := MarkerOf(s.sh.store, sv.rid);
    RepairMoves(cfg, s, sv, confirm, marker);
    var found := exists i :: 0 <= i < |s.sh.ledger| && s.sh.ledger[i].rid == sv.rid;
    var scan := RepairScan(sv, confirm, marker);
    if !found && LedgerSubject(sv) != "" {
      Move(cfg, s, now, c, scan, RepairAppend(sv, confirm, marker));
      var one := Next(cfg, now, Run(c, false));
      Change(cfg, s, one, c, RepairAppend(sv, confirm, marker), Act(cfg, s.sh, History(s), RepairAppend(sv, confirm, marker), false));
      SoloPlus(cfg, now, c, 1, 1);
      k := 2;
    } else {
      Move(cfg, s, now, c, scan, if found then Finish(sv, confirm, true) else Finish(sv, confirm, false));
      assert s.sh.ledger + [] == s.sh.ledger;
      k := 1;
    }
  }

  // Where a settlement stands that has looked for the marker.
  function Looked(cfg: Config, store: Store, sv: Protocol.Settlement, attempts: nat, confirm: Option<Row>): Prog {
    if Marked(store, sv.rid) then RepairScan(sv, confirm, MarkerOf(store, sv.rid)) else Counting(cfg, store, sv, attempts, confirm, 0)
  }

  lemma LookedSolo(cfg: Config, s: State, now: State, c: Cid, sv: Protocol.Settlement, attempts: nat, confirm: Option<Row>) returns (k: nat)
    requires Typed(s.sh.store) && MovedOn(s, now, c, Looked(cfg, s.sh.store, sv, attempts, confirm))
    ensures SettleEnds(cfg, s, Solo(cfg, now, c, k), c, sv, confirm)
  {
    hide Solo, LanesToDebit, TableOf, SettleEnds, Counting, MovedOn, Typed, MarkerOf, Marked;
    if Marked(s.sh.store, sv.rid) {
      k := RepairSolo(cfg, s, now, c, sv, confirm);
    } else {
      k := CommitSolo(cfg, s, now, c, sv, attempts, confirm);
    }
  }

  lemma MarkerSolo(cfg: Config, s: State, now: State, c: Cid, sv: Protocol.Settlement, attempts: nat, confirm: Option<Row>) returns (k: nat)
    requires Typed(s.sh.store) && MovedOn(s, now, c, SettleMarker(sv, attempts, confirm, TableOf(s.sh.store)))
    ensures SettleEnds(cfg, s, Solo(cfg, now, c, k), c, sv, confirm)
  {
    SettleReads(cfg, s, sv, attempts, confirm);
    hide Act, Next, TableOf, SettleEnds, Looked, MovedOn, Typed;
    Move(cfg, s, now, c, SettleMarker(sv, attempts, confirm, TableOf(s.sh.store)), Looked(cfg, s.sh.store, sv, attempts, confirm));
    k := LookedSolo(cfg, s, Next(cfg, now, Run(c, false)), c, sv, attempts, confirm);
    k := k + 1;
  }

  lemma SettleSolo(cfg: Config, s: State, now: State, c: Cid, sv: Protocol.Settlement, attempts: nat, confirm: Option<Row>) returns (k: nat)
    requires Typed(s.sh.store) && MovedOn(s, now, c, SettleRead(sv, attempts, confirm))
    ensures SettleEnds(cfg, s, Solo(cfg, now, c, k), c, sv, confirm)
  {
    SettleReads(cfg, s, sv, attempts, confirm);
    hide Act, Next, TableOf, SettleEnds, Looked, MovedOn, Typed;
    Move(cfg, s, now, c, SettleRead(sv, attempts, confirm), SettleMarker(sv, attempts, confirm, TableOf(s.sh.store)));
    k := MarkerSolo(cfg, s, Next(cfg, now, Run(c, false)), c, sv, attempts, confirm);
    k := k + 1;
  }

  // In every run: a settle call that then runs alone leaves the projections the guard's method is proved to leave, the
  // same ledger event, and answers True.
  lemma SettleAlone(cfg: Config, clock: Time, steps: seq<Step>, c: Cid, rid: Rid, caller: Caller, estimate: Charge, actual: Charge) returns (k: nat)
    requires c !in Exec(cfg, clock, steps).calls
    ensures Typed(Exec(cfg, clock, steps).sh.store)
    ensures var sh := Exec(cfg, clock, steps).sh;
            var e := Exec(cfg, clock, steps + [Begin(c, SettleOp(rid, caller, estimate, actual))] + Actions(c, k));
            && e.sh == Settled(cfg, sh, Protocol.Settlement(rid, caller, estimate, actual, sh.clock))
            && c in e.calls && e.calls[c].SettleDone? && e.calls[c].rid == rid && e.calls[c].ok
  {
    var op := SettleOp(rid, caller, estimate, actual);
    Settlement.CountersRebuildable(cfg, clock, steps);
    ExecAppend(cfg, clock, steps, Begin(c, op));
    var s := Exec(cfg, clock, steps);
    hide Exec, Settled, Typed;
    var now := Next(cfg, s, Begin(c, op));
    k := SettleSolo(cfg, s, now, c, Protocol.Settlement(rid, caller, estimate, actual, s.sh.clock), cfg.settleRetries, None);
    ExecSolo(cfg, clock, steps + [Begin(c, op)], c, k);
  }

  // --- edits -----------------------------------------------------------------------------------------------------------

  lemma EditMoves(cfg: Config, s: State, e: Edit)
    requires Typed(s.sh.store)
    ensures var o := Act(cfg, s.sh, History(s), EditRead(e), false);
            var rows := EditRows(RowsOf(s.sh.store), e, s.sh.clock);
            && o.store == s.sh.store && o.ledger == s.sh.ledger && o.admits == {}
            && (rows.None? ==> o.prog == EditDone(false, e.Confirm?))
            && (rows.Some? ==>
                  && o.prog.EditSwap?
                  && Act(cfg, s.sh, History(s), o.prog, false)
                     == Outcome(Guard.Edited(s.sh.store, e, s.sh.clock), s.sh.ledger, EditDone(true, e.Confirm?), {}))
  {
    SweepsNothing(e);
    hide MarkedIds, ActReserve, ActSettle, Sweep;
  }

  lemma SweepsNothing(e: Edit)
    ensures e.SweepStale? ==> Sweep(map[], e.now) == map[]
  {
  }

  lemma EditSolo(cfg: Config, s: State, now: State, c: Cid, e: Edit) returns (k: nat)
    requires Typed(s.sh.store) && MovedOn(s, now, c, EditRead(e))
    ensures var done := Solo(cfg, now, c, k);
            && done.sh == s.sh.(store := Guard.Edited(s.sh.store, e, s.sh.clock))
            && c in done.calls && done.calls[c] == EditDone(EditRows(RowsOf(s.sh.store), e, s.sh.clock).Some?, e.Confirm?)
  {
    EditMoves(cfg, s, e);
    hide Act, Next, EditRows, RowsOf, Typed;
    var o := Act(cfg, s.sh, History(s), EditRead(e), false);
    Move(cfg, s, now, c, EditRead(e), o.prog);
    if o.prog.EditSwap? {
      var one := Next(cfg, now, Run(c, false));
      Change(cfg, s, one, c, o.prog, Act(cfg, s.sh, History(s), o.prog, false));
      SoloPlus(cfg, now, c, 1, 1);
      k := 2;
    } else {
      k := 1;
    }
  }

  // In every run: an update, sweep or resolution that then runs alone leaves what the guard's method is proved to leave.
  lemma EditAlone(cfg: Config, clock: Time, steps: seq<Step>, c: Cid, e: Edit) returns (k: nat)
    requires c !in Exec(cfg, clock, steps).calls && !e.Confirm?
    ensures var sh := Exec(cfg, clock, steps).sh;
            var done := Exec(cfg, clock, steps + [Begin(c, EditOp(e))] + Actions(c, k));
            && done.sh == sh.(store := Guard.Edited(sh.store, e, sh.clock))
            && c in done.calls && done.calls[c] == EditDone(EditRows(RowsOf(sh.store), e, sh.clock).Some?, false)
  {
    Settlement.CountersRebuildable(cfg, clock, steps);
    ExecAppend(cfg, clock, steps, Begin(c, EditOp(e)));
    var s := Exec(cfg, clock, steps);
    hide Exec, EditRows, RowsOf, Typed, Guard.Edited;
    k := EditSolo(cfg, s, Next(cfg, s, Begin(c, EditOp(e))), c, e);
    ExecSolo(cfg, clock, steps + [Begin(c, EditOp(e))], c, k);
  }

  // --- reconciling as settled ------------------------------------------------------------------------------------------

  lemma ReconcileMoves(cfg: Config, s: State, rid: Rid, usd: Option<nat>, tokens: Option<nat>)
    ensures var rows := RowsOf(s.sh.store);
            Act(cfg, s.sh, History(s), ReconcileRead(rid, usd, tokens), false)
            == Local(s.sh, if rid in rows && rows[rid].state == Uncertain
                           then SettleRead(Guard.ReconcileSettlement(rid, rows[rid], usd, tokens, s.sh.clock), cfg.settleRetries, Some(rows[rid]))
                           else EditDone(false, false))
  {
    hide MarkedIds, ActReserve, ActSettle, RowsOf;
  }

  lemma ReconcileStarts(cfg: Config, s: State, now: State, c: Cid, rid: Rid, usd: Option<nat>, tokens: Option<nat>) returns (k: nat)
    requires Typed(s.sh.store) && MovedOn(s, now, c, ReconcileRead(rid, usd, tokens))
    requires rid in RowsOf(s.sh.store) && RowsOf(s.sh.store)[rid].state == Uncertain
    ensures var row := RowsOf(s.sh.store)[rid];
            SettleEnds(cfg, s, Solo(cfg, now, c, k), c, Guard.ReconcileSettlement(rid, row, usd, tokens, s.sh.clock), Some(row))
  {
    ReconcileMoves(cfg, s, rid, usd, tokens);
    hide Act, Next, RowsOf, SettleEnds, MovedOn, Typed, Guard.ReconcileSettlement;
    var row := RowsOf(s.sh.store)[rid];
    var sv := Guard.ReconcileSettlement(rid, row, usd, tokens, s.sh.clock);
    Move(cfg, s, now, c, ReconcileRead(rid, usd, tokens), SettleRead(sv, cfg.settleRetries, Some(row)));
    k := SettleSolo(cfg, s, Next(cfg, now, Run(c, false)), c, sv, cfg.settleRetries, Some(row));
    k := k + 1;
  }

  lemma ConfirmEnds(cfg: Config, clock: Time, steps: seq<Step>, c: Cid, e: Edit) returns (k: nat)
    requires c in Exec(cfg, clock, steps).calls && Exec(cfg, clock, steps).calls[c] == EditRead(e)
    ensures var sh := Exec(cfg, clock, steps).sh;
            var done := Exec(cfg, clock, steps + Actions(c, k));
            && done.sh == sh.(store := Guard.Edited(sh.store, e, sh.clock))
            && c in done.calls && done.calls[c] == EditDone(EditRows(RowsOf(sh.store), e, sh.clock).Some?, e.Confirm?)
  {
    Settlement.CountersRebuildable(cfg, clock, steps);
    var s := Exec(cfg, clock, steps);
    hide Exec, Typed, Guard.Edited, EditRows, RowsOf;
    k := EditSolo(cfg, s, s, c, e);
    ExecSolo(cfg, clock, steps, c, k);
  }

  // In every run: the reconciliation of an uncertain request as settled, run alone, is the settlement followed by the
  // confirming edit, as the guard's method has it.
  lemma ReconcileAlone(cfg: Config, clock: Time, steps: seq<Step>, c: Cid, rid: Rid, usd: Option<nat>, tokens: Option<nat>)
    returns (settle: nat, confirm: nat)
    requires c !in Exec(cfg, clock, steps).calls
    requires rid in RowsOf(Exec(cfg, clock, steps).sh.store) && RowsOf(Exec(cfg, clock, steps).sh.store)[rid].state == Uncertain
    ensures var sh := Exec(cfg, clock, steps).sh;
            var row := RowsOf(sh.store)[rid];
            var sv := Guard.ReconcileSettlement(rid, row, usd, tokens, sh.clock);
            var settled := Settled(cfg, sh, sv);
            var done := Exec(cfg, clock, steps + [Begin(c, ReconcileOp(rid, usd, tokens))] + Actions(c, settle) + Actions(c, confirm));
            && done.sh == settled.(store := Guard.Edited(settled.store, Confirm(rid, row, sv.actual), sh.clock))
            && c in done.calls && done.calls[c] == EditDone(true, true)
  {
    var op := ReconcileOp(rid, usd, tokens);
    Settlement.CountersRebuildable(cfg, clock, steps);
    ExecAppend(cfg, clock, steps, Begin(c, op));
    var s := Exec(cfg, clock, steps);
    hide Exec, Typed, RowsOf, Settled, Guard.Edited;
    var now := Next(cfg, s, Begin(c, op));
    var row := RowsOf(s.sh.store)[rid];
    settle := ReconcileStarts(cfg, s, now, c, rid, usd, tokens);
    ExecSolo(cfg, clock, steps + [Begin(c, op)], c, settle);
    SettledClock(cfg, s.sh, Guard.ReconcileSettlement(rid, row, usd, tokens, s.sh.clock));
    hide Next;
    confirm := ConfirmEnds(cfg, clock, steps + [Begin(c, op)] + Actions(c, settle), c,
                           Confirm(rid, row, Guard.ReconcileSettlement(rid, row, usd, tokens, s.sh.clock).actual));
  }

  lemma SettledClock(cfg: Config, sh: Shared, sv: Protocol.Settlement)
    ensures Settled(cfg, sh, sv).clock == sh.clock
  {
    hide Guard.SettledStore, Marked, MarkerOf, Booking;
  }
}
