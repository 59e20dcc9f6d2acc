/** Two runs that show why the theorems ask for what they ask. A request settled after its reservation has expired
    takes a lane limited to one request to two; and two overlapping settlements of one request leave two events
    in the ledger. */
module Counterexamples {
  import opened Prelude
  import opened FiniteSums
  import opened Calendar
  import opened Reservations
  import opened ProjectionSwap
  import opened Protocol
  import Bound = Admission

  const LIMIT := Policy(Infinite, None, None, Some(1))
  const LANE := Addr(PrincipalLane, "p", Infinite)
  const CALLER := Caller("p", "k", "", "")
  const CONFIG := Config(map[(PrincipalLane, "p") := [LIMIT]], 0, 0, 0, 0)
  const FIRST := Request("A", CALLER, Charge(0, 0))
  const SECOND := Request("B", CALLER, Charge(0, 0))

  lemma OneCheck()
    ensures Checks(CONFIG, CALLER) == [Check(LANE, LIMIT)]
    ensures Addrs(Checks(CONFIG, CALLER)) == [LANE]
  {
    var subjects := Subjects(CALLER);
    assert subjects == [(PrincipalLane, "p"), (KeyLane, "k")];
    assert subjects[1..] == [(KeyLane, "k")];
    assert (KeyLane, "k") !in CONFIG.policies;
    assert ChecksFor(CONFIG, subjects[1..][1..]) == [];
    assert LaneChecks(PrincipalLane, "p", [LIMIT]) == [Check(LANE, LIMIT)];
    assert ChecksFor(CONFIG, subjects[1..]) == [];
  }

  // Begin a call and let it take four actions with nobody else in between.
  function Alone(c: Cid, op: Op): seq<Step> { [Begin(c, op)] + [Run(c, false)] + [Run(c, false)] + [Run(c, false)] + [Run(c, false)] }

  ghost function Go(s: State, c: Cid): State { Next(CONFIG, s, Run(c, false)) }

  lemma ExecAlone(steps: seq<Step>, c: Cid, op: Op)
    ensures Exec(CONFIG, 0, steps + Alone(c, op)) == Go(Go(Go(Go(Next(CONFIG, Exec(CONFIG, 0, steps), Begin(c, op)), c), c), c), c)
  {
    hide Next, Exec;
    var r := Run(c, false);
    var t := steps + [Begin(c, op)];
    ExecAppend(CONFIG, 0, steps, Begin(c, op));
    ExecAppend(CONFIG, 0, t, r);
    ExecAppend(CONFIG, 0, t + [r], r);
    ExecAppend(CONFIG, 0, t + [r] + [r], r);
    ExecAppend(CONFIG, 0, t + [r] + [r] + [r], r);
    assert steps + Alone(c, op) == t + [r] + [r] + [r] + [r];
  }

  ghost predicate Stands(s: State, c: Cid, sh: Shared, calls: set<Cid>, p: Prog) {
    s.sh == sh && s.calls.Keys == calls && c in s.calls && s.calls[c] == p
  }

  ghost predicate OthersKept(s: State, s': State, c: Cid) {
    forall d :: d in s.calls && d != c ==> d in s'.calls && s'.calls[d] == s.calls[d]
  }

  lemma Begun(s: State, c: Cid, op: Op)
    requires c !in s.calls && !op.EditOp?
    ensures Stands(Next(CONFIG, s, Begin(c, op)), c, s.sh, s.calls.Keys + {c}, Start(CONFIG, op, s.sh.clock))
    ensures History(Next(CONFIG, s, Begin(c, op))) == History(s) && OthersKept(s, Next(CONFIG, s, Begin(c, op)), c)
  {
    hide MarkedIds;
  }

  lemma GoIs(s: State, c: Cid, p: Prog)
    requires Stands(s, c, s.sh, s.calls.Keys, p)
    ensures var o := Act(CONFIG, s.sh, History(s), p, false);
            && Stands(Go(s, c), c, Shared(s.sh.clock, o.store, o.ledger), s.calls.Keys, o.prog)
            && (o.admits == {} ==> Go(s, c).admitted == s.admitted)
            && OthersKept(s, Go(s, c), c)
  {
    hide Act, Rise;
  }

  // Three actions that only move the call on, then a fourth with outcome `o`.
  ghost predicate Acts(sh: Shared, hist: Snapshot, p1: Prog, p2: Prog, p3: Prog, p4: Prog, o: Outcome) {
    && Act(CONFIG, sh, hist, p1, false) == Local(sh, p2)
    && Act(CONFIG, sh, hist, p2, false) == Local(sh, p3)
    && Act(CONFIG, sh, hist, p3, false) == Local(sh, p4)
    && Act(CONFIG, sh, hist, p4, false) == o
  }

  lemma FourActions(s: State, c: Cid, p1: Prog, p2: Prog, p3: Prog, p4: Prog, o: Outcome)
    requires Stands(s, c, s.sh, s.calls.Keys, p1) && Acts(s.sh, History(s), p1, p2, p3, p4, o)
    ensures var s' := Go(Go(Go(Go(s, c), c), c), c);
            Stands(s', c, Shared(s.sh.clock, o.store, o.ledger), s.calls.Keys, o.prog) && OthersKept(s, s', c)
  {
    hide Act, Go, MarkedIds;
    GoIs(s, c, p1);
    GoIs(Go(s, c), c, p2);
    GoIs(Go(Go(s, c), c), c, p3);
    GoIs(Go(Go(Go(s, c), c), c), c, p4);
  }

  lemma AloneActions(s: State, c: Cid, op: Op, p2: Prog, p3: Prog, p4: Prog, o: Outcome)
    requires c !in s.calls && !op.EditOp? && Acts(s.sh, History(s), Start(CONFIG, op, s.sh.clock), p2, p3, p4, o)
    ensures var s' := Go(Go(Go(Go(Next(CONFIG, s, Begin(c, op)), c), c), c), c);
            Stands(s', c, Shared(s.sh.clock, o.store, o.ledger), s.calls.Keys + {c}, o.prog) && OthersKept(s, s', c)
  {
    hide Next, Go, Acts, MarkedIds;
    Begun(s, c, op);
    FourActions(Next(CONFIG, s, Begin(c, op)), c, Start(CONFIG, op, s.sh.clock), p2, p3, p4, o);
  }

  // --- a reserve call alone ---------------------------------------------------------------------------------

  function Checking(req: Request, now: Time, seen: Snapshot, done: nat, used: Option<Totals>): Prog {
    ReserveCheck(req, now, 0, seen, done, used)
  }

  // The state in which a request for the lane fits.
  ghost predicate Free(sh: Shared, req: Request) {
    && req.caller == CALLER && req.rid !in Prune(RowsOf(sh.store)) && Typed(sh.store)
    && (TableOf(sh.store).Some? ==> RowsOf(sh.store) != map[])
    && Get(Used(sh.store, LANE, sh.clock), Requests) + Held(Prune(RowsOf(sh.store)), LANE, Requests, sh.clock) == 0
  }

  ghost function Admission(sh: Shared, req: Request): Outcome {
    Outcome(sh.store[TableKey := TableValue(Admit(TableOf(sh.store), req, sh.clock, CONFIG))], sh.ledger, ReserveDone(req.rid, true), {req.rid})
  }

  lemma ReserveActions(sh: Shared, hist: Snapshot, req: Request)
    requires Free(sh, req)
    ensures var seen := Snapshot(TableOf(sh.store), hist.admitted, hist.marked);
            Acts(sh, hist, ReserveRead(req, sh.clock, 0), Checking(req, sh.clock, seen, 0, None),
                 Checking(req, sh.clock, seen, 0, Some(Used(sh.store, LANE, sh.clock))), Checking(req, sh.clock, seen, 1, None),
                 Admission(sh, req))
  {
    OneCheck();
    hide Checks, Prune, Admit, Held, Used, ActSettle, ActEdit;
  }

  lemma ReserveAlone(s: State, c: Cid, req: Request)
    requires c !in s.calls && Free(s.sh, req)
    ensures var s' := Go(Go(Go(Go(Next(CONFIG, s, Begin(c, ReserveOp(req))), c), c), c), c);
            s'.sh == Shared(s.sh.clock, Admission(s.sh, req).store, s.sh.ledger) && s'.calls.Keys == s.calls.Keys + {c}
  {
    var sh, hist := s.sh, History(s);
    ReserveActions(sh, hist, req);
    hide Next, Go, Acts, Free, Used, MarkedIds;
    var seen := Snapshot(TableOf(sh.store), hist.admitted, hist.marked);
    AloneActions(s, c, ReserveOp(req), Checking(req, sh.clock, seen, 0, None),
                 Checking(req, sh.clock, seen, 0, Some(Used(sh.store, LANE, sh.clock))), Checking(req, sh.clock, seen, 1, None),
                 Admission(sh, req));
  }

  // --- a settlement alone -----------------------------------------------------------------------------------

  const NOTHING := Charge(0, 0)
  const COUNTER := CounterKey(LANE, 0)

  function Late(now: Time): Protocol.Settlement { Settlement("A", CALLER, NOTHING, NOTHING, now) }

  function Counting(s: Protocol.Settlement, table: Option<Table>, todo: seq<Addr>, observed: map<Key, Option<Value>>): Prog {
    SettleCounters(s, 0, None, table, todo, observed)
  }

  // "A" holds a reservation of the one lane and nothing has been debited.
  ghost predicate Unsettled(sh: Shared) {
    && Typed(sh.store) && TableOf(sh.store).Some? && "A" in RowsOf(sh.store) && RowsOf(sh.store)["A"].lanes == [LANE]
    && MarkerKey("A") !in sh.store && COUNTER !in sh.store
  }

  ghost function Settled(sh: Shared): Outcome {
    Outcome(sh.store + SettleWrites(TableOf(sh.store), Late(sh.clock), map[COUNTER := None]), sh.ledger, SettleLedger(Late(sh.clock), None), {})
  }

  lemma SettleMoves(sh: Shared)
    requires Unsettled(sh)
    ensures var s := Late(sh.clock);
            var table := TableOf(sh.store);
            && ActSettle(CONFIG, sh, SettleRead(s, 0, None), false) == Local(sh, SettleMarker(s, 0, None, table))
            && ActSettle(CONFIG, sh, SettleMarker(s, 0, None, table), false) == Local(sh, Counting(s, table, [LANE], map[]))
            && ActSettle(CONFIG, sh, Counting(s, table, [LANE], map[]), false) == Local(sh, Counting(s, table, [], map[COUNTER := None]))
            && ActSettle(CONFIG, sh, Counting(s, table, [], map[COUNTER := None]), false) == Settled(sh)
  {
    hide Checks, SettleWrites;
    var s, table := Late(sh.clock), TableOf(sh.store);
    assert LanesToDebit(CONFIG, table, s) == [LANE];
    assert [LANE][1..] == [];
    assert LedgerSubject(s) == "p" && |"p"| == 1;
    var expects := SettleExpects(table, s, map[COUNTER := None]);
    assert expects.Keys == {COUNTER, TableKey, MarkerKey("A")};
    assert Matches(sh.store, expects);
  }

  predicate Settles(p: Prog) {
    p.SettleRead? || p.SettleMarker? || p.SettleCounters? || p.SettleLedger? || p.RepairScan? || p.RepairAppend?
  }

  lemma ActIsSettle(sh: Shared, hist: Snapshot, p: Prog)
    ensures Settles(p) ==> Act(CONFIG, sh, hist, p, false) == ActSettle(CONFIG, sh, p, false)
  {
    hide ActSettle, ActReserve, ActEdit;
  }

  lemma SettleActions(sh: Shared, hist: Snapshot)
    requires Unsettled(sh)
    ensures var s := Late(sh.clock);
            var table := TableOf(sh.store);
            Acts(sh, hist, SettleRead(s, 0, None), SettleMarker(s, 0, None, table), Counting(s, table, [LANE], map[]),
                 Counting(s, table, [], map[COUNTER := None]), Settled(sh))
  {
    SettleMoves(sh);
    hide ActSettle, Unsettled, Settled, Late, TableOf;
    forall p ensures Settles(p) ==> Act(CONFIG, sh, hist, p, false) == ActSettle(CONFIG, sh, p, false) { ActIsSettle(sh, hist, p); }
    hide Act;
  }

  lemma SettleAlone(s: State, c: Cid)
    requires c !in s.calls && Unsettled(s.sh)
    ensures var s' := Go(Go(Go(Go(Next(CONFIG, s, Begin(c, SettleOp("A", CALLER, NOTHING, NOTHING))), c), c), c), c);
            Stands(s', c, Shared(s.sh.clock, Settled(s.sh).store, s.sh.ledger), s.calls.Keys + {c}, SettleLedger(Late(s.sh.clock), None))
  {
    var sh, table, late := s.sh, TableOf(s.sh.store), Late(s.sh.clock);
    SettleActions(sh, History(s));
    hide Next, Go, Acts, Unsettled, MarkedIds, SettleWrites;
    AloneActions(s, c, SettleOp("A", CALLER, NOTHING, NOTHING), SettleMarker(late, 0, None, table), Counting(late, table, [LANE], map[]),
                 Counting(late, table, [], map[COUNTER := None]), Settled(sh));
  }

  // --- the run ------------------------------------------------------------------------------------------------

  // Reserve A; let it expire; reserve B, which fits because A no longer counts; settle A.
  function LateRun(): seq<Step> {
    Alone(0, ReserveOp(FIRST)) + [Tick(1)] + Alone(1, ReserveOp(SECOND)) + Alone(2, SettleOp("A", CALLER, NOTHING, NOTHING))
  }

  function RowA(): Row { NewRow(FIRST, 0, 0, [LANE]) }

  function RowB(): Row { NewRow(SECOND, 1, 0, [LANE]) }

  function TableA(): Table { Table(map["A" := RowA()], 0) }

  function TableAB(): Table { Table(map["A" := RowA()]["B" := RowB()], 1) }

  lemma HeldOne(rid: Rid, row: Row, now: Time)
    ensures Held(map[], LANE, Requests, now) == 0
    ensures Held(map[rid := row], LANE, Requests, now) == HoldOf(row, LANE, Requests, now)
  {
    HeldUpdate(map[], rid, row, LANE, Requests, now);
    assert map[][rid := row] == map[rid := row];
  }

  ghost function WithTable(now: Time, t: Table): Shared { Shared(now, map[TableKey := TableValue(t)], []) }

  lemma FirstFits()
    ensures Free(Shared(0, map[], []), FIRST)
    ensures Admission(Shared(0, map[], []), FIRST).store == WithTable(0, TableA()).store
  {
    OneCheck();
    HeldOne("A", RowA(), 0);
    assert Prune(map[]) == map[];
    hide Checks, Held, Prune;
  }

  lemma SecondFits()
    ensures Free(WithTable(1, TableA()), SECOND)
    ensures Admission(WithTable(1, TableA()), SECOND).store == WithTable(1, TableAB()).store
  {
    OneCheck();
    HeldOne("A", RowA(), 1);
    assert Prune(TableA().rows) == TableA().rows;
    hide Checks, Held, Prune;
    assert Admit(Some(TableA()), SECOND, 1, CONFIG) == TableAB();
  }

  lemma FirstAdmitted()
    ensures var s := Exec(CONFIG, 0, Alone(0, ReserveOp(FIRST)));
            s.sh == WithTable(0, TableA()) && s.calls.Keys == {0}
  {
    FirstFits();
    assert [] + Alone(0, ReserveOp(FIRST)) == Alone(0, ReserveOp(FIRST));
    var s := Exec(CONFIG, 0, []);
    hide Next, Free, Admission;
    ExecAlone([], 0, ReserveOp(FIRST));
    ReserveAlone(s, 0, FIRST);
  }

  lemma SecondAdmitted()
    ensures var s := Exec(CONFIG, 0, Alone(0, ReserveOp(FIRST)) + [Tick(1)] + Alone(1, ReserveOp(SECOND)));
            s.sh == WithTable(1, TableAB()) && s.calls.Keys == {0, 1}
  {
    FirstAdmitted();
    SecondFits();
    hide Free, Admission, Alone, Exec, TableA, TableAB;
    var first := Alone(0, ReserveOp(FIRST));
    ExecAppend(CONFIG, 0, first, Tick(1));
    var s := Exec(CONFIG, 0, first + [Tick(1)]);
    assert s.sh == WithTable(1, TableA()) && s.calls.Keys == {0};
    hide Next;
    ExecAlone(first + [Tick(1)], 1, ReserveOp(SECOND));
    ReserveAlone(s, 1, SECOND);
  }

  function SettledRows(): map<Rid, Row> { TableAB().rows["A" := SettledRow(RowA(), Late(1))] }

  lemma HeldTwo(x: Rid, first: Row, y: Rid, second: Row, now: Time)
    requires x != y
    ensures Held(map[x := first][y := second], LANE, Requests, now) == HoldOf(first, LANE, Requests, now) + HoldOf(second, LANE, Requests, now)
  {
    HeldOne(x, first, now);
    HeldUpdate(map[x := first], y, second, LANE, Requests, now);
    hide Held, HoldOf;
  }

  lemma HeldAfter()
    ensures Held(SettledRows(), LANE, Requests, 1) == 1
  {
    var settled := SettledRow(RowA(), Late(1));
    HeldTwo("A", settled, "B", RowB(), 1);
    hide Held;
    assert SettledRows() == map["A" := settled]["B" := RowB()];
  }

  lemma LateIsUnsettled()
    ensures Unsettled(WithTable(1, TableAB())) && TableOf(WithTable(1, TableAB()).store) == Some(TableAB())
  {
  }

  lemma StoreAfter()
    ensures var store' := Settled(WithTable(1, TableAB())).store;
            RowsOf(store') == SettledRows() && CounterAt(store', LANE, 0) == Totals(0, 0, 1)
  {
    LateIsUnsettled();
    var sh := WithTable(1, TableAB());
    assert Settled(sh).store == sh.store + SettleWrites(Some(TableAB()), Late(1), map[COUNTER := None]);
    WritesAfter();
    hide TableAB, SettledRows, SettleWrites, Settled;
  }

  lemma TablePart()
    ensures TableWrites(Some(TableAB()), Late(1)) == map[TableKey := TableValue(Table(SettledRows(), 1))]
  {
    hide NewRow, SettledRow;
    assert TableAB().rows["A"] == RowA();
  }

  lemma OneCounter(k: Key, actual: Charge)
    ensures CounterWrites(map[k := None], actual) == map[k := TotalsValue(Totals(actual.usd, actual.tokens, 1))]
  {
    var observed: map<Key, Option<Value>> := map[k := None];
    assert CounterWrites(observed, actual).Keys == {k};
  }

  lemma WritesAfter()
    ensures var writes := SettleWrites(Some(TableAB()), Late(1), map[COUNTER := None]);
            && COUNTER in writes && writes[COUNTER] == TotalsValue(Totals(0, 0, 1))
            && TableKey in writes && writes[TableKey] == TableValue(Table(SettledRows(), 1))
  {
    TablePart();
    OneCounter(COUNTER, NOTHING);
    hide TableAB, SettledRows, TableWrites, CounterWrites, DebitedLanes;
  }

  // The load after the late settlement: one request used, one held.
  lemma LoadAfter()
    ensures Unsettled(WithTable(1, TableAB()))
    ensures Load(Shared(1, Settled(WithTable(1, TableAB())).store, []), LANE, Requests) == 2
  {
    LateIsUnsettled();
    HeldAfter();
    StoreAfter();
    hide Held, Settled, RowsOf, SettledRows, CounterAt, WithTable, Unsettled;
  }

  lemma LateRunIsFresh()
    ensures Bound.DistinctReserves(LateRun())
  {
    var steps := LateRun();
    forall i | 0 <= i < |steps| && steps[i].Begin? && steps[i].op.ReserveOp? ensures i == 0 || i == 6 {}
    assert steps[0].op.req.rid == "A" && steps[6].op.req.rid == "B";
  }

  ghost function AfterLate(): Shared { Shared(1, Settled(WithTable(1, TableAB())).store, []) }

  lemma LateRunEnds()
    ensures Stands(Exec(CONFIG, 0, LateRun()), 2, AfterLate(), {0, 1, 2}, SettleLedger(Late(1), None))
  {
    SecondAdmitted();
    LoadAfter();
    hide Exec, Alone, Next, Unsettled, Settled, TableAB, Load;
    var second := Alone(0, ReserveOp(FIRST)) + [Tick(1)] + Alone(1, ReserveOp(SECOND));
    assert LateRun() == second + Alone(2, SettleOp("A", CALLER, NOTHING, NOTHING));
    ExecAlone(second, 2, SettleOp("A", CALLER, NOTHING, NOTHING));
    SettleAlone(Exec(CONFIG, 0, second), 2);
  }

  // The run uses distinct request ids and only in-estimate costs, and still ends with the lane's one request
  // used and a second one held.
  lemma LateSettlementOverdraws()
    ensures Bound.DistinctReserves(LateRun())
    ensures LIMIT in PoliciesOf(CONFIG, PrincipalLane, "p") && Limit(LIMIT, Requests) == Some(1)
    ensures Load(Exec(CONFIG, 0, LateRun()).sh, LANE, Requests) == 2
  {
    LateRunIsFresh();
    LateRunEnds();
    LoadAfter();
    hide Exec, LateRun, Settled, TableAB, Load, Bound.DistinctReserves;
  }

  // --- two settlements of one request ---------------------------------------------------------------------------

  const BOOKED := Entry("p", "A", NOTHING)

  // A second settlement of "A", begun while the first has committed but not yet booked its ledger event.
  lemma RepairMoves(sh: Shared)
    requires MarkerKey("A") in sh.store && sh.ledger == []
    requires sh.store[MarkerKey("A")] == MarkerValue(MarkerFor(Late(sh.clock), {LANE}))
    ensures var s := Late(sh.clock);
            var marker := MarkerFor(s, {LANE});
            && ActSettle(CONFIG, sh, SettleRead(s, 0, None), false) == Local(sh, SettleMarker(s, 0, None, TableOf(sh.store)))
            && ActSettle(CONFIG, sh, SettleMarker(s, 0, None, TableOf(sh.store)), false) == Local(sh, RepairScan(s, None, marker))
            && ActSettle(CONFIG, sh, RepairScan(s, None, marker), false) == Local(sh, RepairAppend(s, None, marker))
            && ActSettle(CONFIG, sh, RepairAppend(s, None, marker), false) == Outcome(sh.store, [BOOKED], SettleDone("A", true, true), {})
  {
    hide Checks, LanesToDebit, SettleWrites, SettleExpects, Matches, TableOf;
    assert LedgerSubject(Late(sh.clock)) == "p" && |"p"| == 1;
  }

  lemma RepairActions(sh: Shared, hist: Snapshot)
    requires MarkerKey("A") in sh.store && sh.ledger == []
    requires sh.store[MarkerKey("A")] == MarkerValue(MarkerFor(Late(sh.clock), {LANE}))
    ensures var s := Late(sh.clock);
            var marker := MarkerFor(s, {LANE});
            Acts(sh, hist, SettleRead(s, 0, None), SettleMarker(s, 0, None, TableOf(sh.store)), RepairScan(s, None, marker),
                 RepairAppend(s, None, marker), Outcome(sh.store, [BOOKED], SettleDone("A", true, true), {}))
  {
    RepairMoves(sh);
    hide ActSettle, TableOf;
    forall p ensures Settles(p) ==> Act(CONFIG, sh, hist, p, false) == ActSettle(CONFIG, sh, p, false) { ActIsSettle(sh, hist, p); }
    hide Act;
  }

  function OverlappingRun(): seq<Step> {
    LateRun() + Alone(3, SettleOp("A", CALLER, NOTHING, NOTHING)) + [Run(2, false)]
  }

  lemma RepairAlone(s: State, sh: Shared)
    requires Stands(s, 2, sh, {0, 1, 2}, SettleLedger(Late(1), None)) && sh.clock == 1 && sh.ledger == []
    requires MarkerKey("A") in sh.store && sh.store[MarkerKey("A")] == MarkerValue(MarkerFor(Late(1), {LANE}))
    ensures var s' := Go(Go(Go(Go(Next(CONFIG, s, Begin(3, SettleOp("A", CALLER, NOTHING, NOTHING))), 3), 3), 3), 3);
            Stands(s', 2, sh.(ledger := [BOOKED]), {0, 1, 2, 3}, SettleLedger(Late(1), None))
  {
    RepairActions(sh, History(s));
    hide Next, Go, Acts, MarkedIds;
    var marker := MarkerFor(Late(1), {LANE});
    AloneActions(s, 3, SettleOp("A", CALLER, NOTHING, NOTHING), SettleMarker(Late(1), 0, None, TableOf(sh.store)),
                 RepairScan(Late(1), None, marker), RepairAppend(Late(1), None, marker),
                 Outcome(sh.store, [BOOKED], SettleDone("A", true, true), {}));
  }

  lemma LateBooking(s: State)
    requires Stands(s, 2, s.sh, s.calls.Keys, SettleLedger(Late(1), None))
    ensures Next(CONFIG, s, Run(2, false)).sh.ledger == s.sh.ledger + [BOOKED]
  {
    hide ActReserve, ActEdit, Go;
    assert LedgerSubject(Late(1)) == "p";
  }

  lemma LateIsMarked()
    ensures MarkerKey("A") in AfterLate().store && AfterLate().store[MarkerKey("A")] == MarkerValue(MarkerFor(Late(1), {LANE}))
    ensures AfterLate().clock == 1 && AfterLate().ledger == []
  {
    assert DebitedLanes(map[COUNTER := None]) == {LANE};
    hide TableWrites, CounterWrites;
  }

  // Two settlements of one request that overlap: the second repairs the ledger while the first is about to
  // book, and the request has two events.
  lemma OverlappingSettlesBookTwice()
    ensures Exec(CONFIG, 0, OverlappingRun()).sh.ledger == [BOOKED, BOOKED]
  {
    var op := SettleOp("A", CALLER, NOTHING, NOTHING);
    LateRunEnds();
    LateIsMarked();
    hide Exec, Alone, LateRun, Next, Go, AfterLate, Late, MarkerFor;
    ExecAlone(LateRun(), 3, op);
    RepairAlone(Exec(CONFIG, 0, LateRun()), AfterLate());
    var more := LateRun() + Alone(3, op);
    ExecAppend(CONFIG, 0, more, Run(2, false));
    LateBooking(Exec(CONFIG, 0, more));
  }
}
