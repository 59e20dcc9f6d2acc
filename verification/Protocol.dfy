/** The quota protocol as a step system. A call (reserve, settle, update, sweep, reconcile) is a small program;
    a step runs one atomic action of one call: a read of one projection, a comparison, a compare-and-swap, a
    ledger append. Calls interleave freely, the clock moves between any two actions, and a call may be lost at
    any point. No lock is modelled: the workers of a deployment share only the projection store. */
module Protocol {
  import opened Prelude
  import opened Calendar
  import opened Reservations
  import opened ProjectionSwap

  // --- the projections --------------------------------------------------------------------------------

  datatype Key = TableKey | CounterKey(addr: Addr, bucket: nat) | MarkerKey(rid: Rid)

  // The durable record that a request was settled, written with the debits it stands for.
  datatype Marker = Marker(estimate: Charge, actual: Charge, settledAt: Time, lanes: set<Addr>)

  datatype Value = TableValue(table: Table) | TotalsValue(totals: Totals) | MarkerValue(marker: Marker)

  type Store = map<Key, Value>

  ghost predicate Typed(store: Store) {
    forall k :: k in store ==>
      match k
      case TableKey => store[k].TableValue?
      case CounterKey(_, _) => store[k].TotalsValue?
      case MarkerKey(_) => store[k].MarkerValue?
  }

  function TableOf(store: Store): Option<Table> {
    if TableKey in store && store[TableKey].TableValue? then Some(store[TableKey].table) else None
  }

  function RowsOf(store: Store): map<Rid, Row> {
    match TableOf(store)
    case None => map[]
    case Some(t) => t.rows
  }

  function AsTotals(v: Option<Value>): Totals {
    match v
    case Some(TotalsValue(t)) => t
    case _ => ZERO
  }

  function CounterAt(store: Store, a: Addr, bucket: nat): Totals { AsTotals(Read(store, CounterKey(a, bucket))) }

  // What a lane has used in the period that is current at `now`.
  function Used(store: Store, a: Addr, now: Time): Totals { CounterAt(store, a, Bucket(now, a.period)) }

  predicate Marked(store: Store, rid: Rid) { MarkerKey(rid) in store }

  // --- policies ---------------------------------------------------------------------------------------------

  datatype Policy = Policy(period: Period, maxUsd: Option<nat>, maxTokens: Option<nat>, maxRequests: Option<nat>)

  function Limit(p: Policy, m: Metric): Option<nat> {
    match m
    case Usd => p.maxUsd
    case Tokens => p.maxTokens
    case Requests => p.maxRequests
  }

  datatype Config = Config(
    policies: map<(Lane, string), seq<Policy>>,
    ttl: nat,
    reserveRetries: nat,    // extra attempts after the first
    settleRetries: nat,     // extra attempts after the first
    sweepRetries: nat)      // extra attempts after the first

  function PoliciesOf(cfg: Config, lane: Lane, subject: string): seq<Policy> {
    if (lane, subject) in cfg.policies then cfg.policies[(lane, subject)] else []
  }

  datatype Check = Check(addr: Addr, policy: Policy)

  function LaneChecks(lane: Lane, subject: string, policies: seq<Policy>): (checks: seq<Check>)
    ensures |checks| == |policies|
    ensures forall i :: 0 <= i < |policies| ==> checks[i] == Check(Addr(lane, subject, policies[i].period), policies[i])
  {
    seq(|policies|, i requires 0 <= i < |policies| => Check(Addr(lane, subject, policies[i].period), policies[i]))
  }

  // The lanes a caller is charged in: principal and key always, user and token when known.
  datatype Caller = Caller(principal: string, key: string, user: string, token: string)

  function Subjects(c: Caller): seq<(Lane, string)> {
    [(PrincipalLane, c.principal), (KeyLane, c.key)]
    + (if c.user != "" then [(UserLane, c.user)] else [])
    + (if c.token != "" then [(TokenLane, "token:" + c.token)] else [])
  }

  function ChecksFor(cfg: Config, subjects: seq<(Lane, string)>): seq<Check> {
    if subjects == [] then []
    else LaneChecks(subjects[0].0, subjects[0].1, PoliciesOf(cfg, subjects[0].0, subjects[0].1)) + ChecksFor(cfg, subjects[1..])
  }

  function Checks(cfg: Config, c: Caller): seq<Check> { ChecksFor(cfg, Subjects(c)) }

  function Addrs(checks: seq<Check>): (lanes: seq<Addr>)
    ensures |lanes| == |checks| && forall i :: 0 <= i < |checks| ==> lanes[i] == checks[i].addr
  {
    seq(|checks|, i requires 0 <= i < |checks| => checks[i].addr)
  }

  // --- reserve -----------------------------------------------------------------------------------------------

  datatype Request = Request(rid: Rid, caller: Caller, estimate: Charge)

  function NewRow(req: Request, started: Time, ttl: nat, lanes: seq<Addr>): Row {
    Row(Reserved, Some(started), Some(started + ttl), req.estimate, lanes, req.caller.principal, req.caller.key,
        None, None, None, None, None)
  }

  // The table an admission writes: closed rows dropped, the new reservation added.
  function Admit(table: Option<Table>, req: Request, started: Time, cfg: Config): Table {
    var rows := if table.Some? then table.value.rows else map[];
    Table(Prune(rows)[req.rid := NewRow(req, started, cfg.ttl, Addrs(Checks(cfg, req.caller)))], started)
  }

  // The value the admission swap compares with; a table without rows is compared as if it were absent.
  function AdmitExpects(table: Option<Table>): Option<Value> {
    if table.Some? && table.value.rows != map[] then Some(TableValue(table.value)) else None
  }

  // One limit comparison of one policy, with the reserved total taken over the pruned rows.
  ghost predicate Fits(used: nat, rows: map<Rid, Row>, c: Check, m: Metric, estimate: Charge, now: Time) {
    Limit(c.policy, m).Some? ==> used + Held(Prune(rows), c.addr, m, now) + Amount(estimate, m) <= Limit(c.policy, m).value
  }

  // --- settle ------------------------------------------------------------------------------------------------

  datatype Settlement = Settlement(rid: Rid, caller: Caller, estimate: Charge, actual: Charge, now: Time)

  function LedgerSubject(s: Settlement): string {
    if s.caller.user != "" then s.caller.user else s.caller.principal
  }

  function LanesToDebit(cfg: Config, table: Option<Table>, s: Settlement): seq<Addr> {
    if table.Some? && s.rid in table.value.rows && table.value.rows[s.rid].lanes != [] then table.value.rows[s.rid].lanes
    else Addrs(Checks(cfg, s.caller))
  }

  function SettledRow(r: Row, s: Settlement): Row {
    r.(state := Settled, actualUsd := Some(s.actual.usd), actualTokens := Some(s.actual.tokens), settledAt := Some(s.now))
  }

  predicate HasReservation(table: Option<Table>, s: Settlement) {
    table.Some? && s.rid in table.value.rows
  }

  function TableWrites(table: Option<Table>, s: Settlement): map<Key, Value> {
    if HasReservation(table, s) then
      map[TableKey := TableValue(Table(table.value.rows[s.rid := SettledRow(table.value.rows[s.rid], s)], s.now))]
    else map[]
  }

  function TableExpects(table: Option<Table>, s: Settlement): map<Key, Option<Value>> {
    if HasReservation(table, s) then map[TableKey := Some(TableValue(table.value))] else map[]
  }

  // `observed` holds one entry per counter to debit: the value read, None when absent.
  function CounterWrites(observed: map<Key, Option<Value>>, actual: Charge): map<Key, Value> {
    map k | k in observed :: TotalsValue(Plus(AsTotals(observed[k]), actual))
  }

  function MarkerFor(s: Settlement, lanes: set<Addr>): Marker { Marker(s.estimate, s.actual, s.now, lanes) }

  function DebitedLanes(observed: map<Key, Option<Value>>): set<Addr> {
    set k | k in observed && k.CounterKey? :: k.addr
  }

  function SettleExpects(table: Option<Table>, s: Settlement, observed: map<Key, Option<Value>>): map<Key, Option<Value>> {
    observed + TableExpects(table, s) + map[MarkerKey(s.rid) := None]
  }

  function SettleWrites(table: Option<Table>, s: Settlement, observed: map<Key, Option<Value>>): map<Key, Value> {
    CounterWrites(observed, s.actual) + TableWrites(table, s)
    + map[MarkerKey(s.rid) := MarkerValue(MarkerFor(s, DebitedLanes(observed)))]
  }

  // --- other rewrites of the table ---------------------------------------------------------------------------

  datatype Edit =
    | Update(rid: Rid, state: RowState, usd: Option<nat>, tokens: Option<nat>)   // update_reservation
    | SweepStale(now: Time)                                                      // expire_stale_reservations
    | Resolve(rid: Rid, released: bool, usd: Option<nat>, tokens: Option<nat>)   // mark_reconciled: released / uncertain
    | Confirm(rid: Rid, known: Row, actual: Charge)                                // mark_reconciled, after settling

  function UpdatedRow(r: Row, e: Edit, now: Time): Row
    requires e.Update?
  {
    r.(state := e.state, updatedAt := Some(now),
       actualUsd := if e.usd.Some? then e.usd else r.actualUsd,
       actualTokens := if e.tokens.Some? then e.tokens else r.actualTokens)
  }

  // The rows after an edit, or None when the code returns without writing.
  function EditRows(rows: map<Rid, Row>, e: Edit, now: Time): Option<map<Rid, Row>> {
    match e
    case Update(rid, _, _, _) =>
      if rid in rows then Some(rows[rid := UpdatedRow(rows[rid], e, now)]) else None
    case SweepStale(at) =>
      if Sweep(rows, at) != rows then Some(Sweep(rows, at)) else None
    case Resolve(rid, released, usd, tokens) =>
      if rid in rows && rows[rid].state == Uncertain then
        Some(rows[rid := rows[rid].(state := if released then Released else Uncertain, reconciledAt := Some(now),
                                    actualUsd := if usd.Some? then usd else rows[rid].actualUsd,
                                    actualTokens := if tokens.Some? then tokens else rows[rid].actualTokens)])
      else None
    case Confirm(rid, known, actual) =>
      var row := if rid in rows then rows[rid] else known;
      Some(rows[rid := row.(state := Settled, reconciledAt := Some(now),
                            actualUsd := Some(actual.usd), actualTokens := Some(actual.tokens))])
  }

  function EditStamp(e: Edit, now: Time): Time { if e.SweepStale? then e.now else now }

  function EditRetries(cfg: Config, e: Edit): nat { if e.Update? then 0 else cfg.sweepRetries }

  // --- calls and their programs -------------------------------------------------------------------------------

  datatype Op =
    | ReserveOp(req: Request)
    | SettleOp(rid: Rid, caller: Caller, estimate: Charge, actual: Charge)
    | EditOp(edit: Edit)
    | ReconcileOp(rid: Rid, usd: Option<nat>, tokens: Option<nat>)     // mark_reconciled with outcome settled

  // What a call has seen: the table, and (bookkeeping for the proofs) who was admitted or settled at that moment.
  datatype Snapshot = Snapshot(table: Option<Table>, admitted: set<Rid>, marked: set<Rid>)

  datatype Prog =
    | ReserveRead(req: Request, started: Time, attempts: nat)
    | ReserveCheck(req: Request, started: Time, attempts: nat, seen: Snapshot, done: nat, used: Option<Totals>)
    | SettleRead(s: Settlement, attempts: nat, confirm: Option<Row>)
    | SettleMarker(s: Settlement, attempts: nat, confirm: Option<Row>, table: Option<Table>)
    | SettleCounters(s: Settlement, attempts: nat, confirm: Option<Row>, table: Option<Table>, todo: seq<Addr>,
                     observed: map<Key, Option<Value>>)
    | SettleLedger(s: Settlement, confirm: Option<Row>)
    | RepairScan(s: Settlement, confirm: Option<Row>, marker: Marker)
    | RepairAppend(s: Settlement, confirm: Option<Row>, marker: Marker)
    | ReconcileRead(rid: Rid, usd: Option<nat>, tokens: Option<nat>)
    | EditRead(edit: Edit)
    | EditSwap(edit: Edit, expected: Option<Table>, next: Table, attempts: nat)
    | ReserveDone(rid: Rid, ok: bool)
    | SettleDone(rid: Rid, ok: bool, inLedger: bool)
    | EditDone(ok: bool, afterSettling: bool)
    | Lost

  datatype Entry = Entry(subject: string, rid: Rid, actual: Charge)

  datatype Shared = Shared(clock: Time, store: Store, ledger: seq<Entry>)

  // What one action leaves behind; `admits` names the request a reserve swap let in.
  datatype Outcome = Outcome(store: Store, ledger: seq<Entry>, prog: Prog, admits: set<Rid>)

  function Start(cfg: Config, op: Op, now: Time): Prog {
    match op
    case ReserveOp(req) => ReserveRead(req, now, cfg.reserveRetries)
    case SettleOp(rid, caller, estimate, actual) => SettleRead(Settlement(rid, caller, estimate, actual, now), cfg.settleRetries, None)
    case EditOp(e) => EditRead(e)
    case ReconcileOp(rid, usd, tokens) => ReconcileRead(rid, usd, tokens)
  }

  function Local(sh: Shared, prog: Prog): Outcome { Outcome(sh.store, sh.ledger, prog, {}) }

  // A settlement that has done its work: return, or go on to the reconciler's closing edit.
  function Finish(s: Settlement, confirm: Option<Row>, inLedger: bool): Prog {
    match confirm
    case None => SettleDone(s.rid, true, inLedger)
    case Some(row) => EditRead(Confirm(s.rid, row, s.actual))
  }

  ghost function ActReserve(cfg: Config, sh: Shared, hist: Snapshot, p: Prog): Outcome
    requires p.ReserveRead? || p.ReserveCheck?
  {
    match p
    case ReserveRead(req, started, attempts) =>
      var seen := Snapshot(TableOf(sh.store), hist.admitted, hist.marked);
      if req.rid in Prune(RowsOf(sh.store)) then Local(sh, ReserveDone(req.rid, true))
      else Local(sh, ReserveCheck(req, started, attempts, seen, 0, None))
    case ReserveCheck(req, started, attempts, seen, done, used) =>
      var checks := Checks(cfg, req.caller);
      if done < |checks| then
        var c := checks[done];
        match used
        case None => Local(sh, p.(used := Some(Used(sh.store, c.addr, sh.clock))))
        case Some(u) =>
          var rows := if seen.table.Some? then seen.table.value.rows else map[];
          if forall m :: Fits(Get(u, m), rows, c, m, req.estimate, sh.clock)
          then Local(sh, p.(done := done + 1, used := None))
          else Local(sh, ReserveDone(req.rid, false))
      else if Read(sh.store, TableKey) == AdmitExpects(seen.table) then
        Outcome(sh.store[TableKey := TableValue(Admit(seen.table, req, started, cfg))], sh.ledger, ReserveDone(req.rid, true), {req.rid})
      else if attempts > 0 then Local(sh, ReserveRead(req, started, attempts - 1))
      else Local(sh, ReserveDone(req.rid, false))
  }

  ghost function ActSettle(cfg: Config, sh: Shared, p: Prog, appendFails: bool): Outcome
    requires p.SettleRead? || p.SettleMarker? || p.SettleCounters? || p.SettleLedger? || p.RepairScan? || p.RepairAppend?
  {
    match p
    case SettleRead(s, attempts, confirm) => Local(sh, SettleMarker(s, attempts, confirm, TableOf(sh.store)))
    case SettleMarker(s, attempts, confirm, table) =>
      var found := Read(sh.store, MarkerKey(s.rid));
      if found.Some? && found.value.MarkerValue? then Local(sh, RepairScan(s, confirm, found.value.marker))
      else Local(sh, SettleCounters(s, attempts, confirm, table, LanesToDebit(cfg, table, s), map[]))
    case SettleCounters(s, attempts, confirm, table, todo, observed) =>
      if todo != [] then
        var k := CounterKey(todo[0], Bucket(s.now, todo[0].period));
        Local(sh, p.(todo := todo[1..], observed := if k in observed then observed else observed[k := Read(sh.store, k)]))
      else if Matches(sh.store, SettleExpects(table, s, observed)) then
        var store := sh.store + SettleWrites(table, s, observed);
        if LedgerSubject(s) != "" then Outcome(store, sh.ledger, SettleLedger(s, confirm), {})
        else Outcome(store, sh.ledger, Finish(s, confirm, false), {})
      else if attempts > 0 then Local(sh, SettleRead(s, attempts - 1, confirm))
      else Local(sh, SettleDone(s.rid, false, false))
    case SettleLedger(s, confirm) =>
      if appendFails then Local(sh, Finish(s, confirm, false))
      else Outcome(sh.store, sh.ledger + [Entry(LedgerSubject(s), s.rid, s.actual)], Finish(s, confirm, true), {})
    case RepairScan(s, confirm, marker) =>
      if exists i :: 0 <= i < |sh.ledger| && sh.ledger[i].rid == s.rid then Local(sh, Finish(s, confirm, true))
      else if LedgerSubject(s) != "" then Local(sh, RepairAppend(s, confirm, marker))
      else Local(sh, Finish(s, confirm, false))
    case RepairAppend(s, confirm, marker) =>
      // Here a failing append is not swallowed: the call raises and never returns.
      if appendFails then Local(sh, Lost)
      else Outcome(sh.store, sh.ledger + [Entry(LedgerSubject(s), s.rid, marker.actual)], Finish(s, confirm, true), {})
  }

  ghost function ActEdit(cfg: Config, sh: Shared, p: Prog): Outcome
    requires p.ReconcileRead? || p.EditRead? || p.EditSwap?
  {
    match p
    case ReconcileRead(rid, usd, tokens) =>
      var rows := RowsOf(sh.store);
      if rid in rows && rows[rid].state == Uncertain then
        var row := rows[rid];
        var actual := Charge(if usd.Some? then usd.value else row.estimate.usd, if tokens.Some? then tokens.value else row.estimate.tokens);
        Local(sh, SettleRead(Settlement(rid, Caller(row.principal, row.key, "", ""), row.estimate, actual, sh.clock),
                             cfg.settleRetries, Some(row)))
      else Local(sh, EditDone(false, false))
    case EditRead(e) =>
      var table := TableOf(sh.store);
      if table.None? && !e.Confirm? then Local(sh, EditDone(false, false))
      else
        (match EditRows(RowsOf(sh.store), e, sh.clock)
         case None => Local(sh, EditDone(false, e.Confirm?))
         case Some(rows) => Local(sh, EditSwap(e, table, Table(rows, EditStamp(e, sh.clock)), EditRetries(cfg, e))))
    case EditSwap(e, expected, next, attempts) =>
      if Read(sh.store, TableKey) == (if expected.Some? then Some(TableValue(expected.value)) else None) then
        Outcome(sh.store[TableKey := TableValue(next)], sh.ledger, EditDone(true, e.Confirm?), {})
      else if attempts > 0 then Local(sh, EditSwap(e, expected, next, attempts - 1))
      else Local(sh, EditDone(false, e.Confirm?))
  }

  ghost function Act(cfg: Config, sh: Shared, hist: Snapshot, p: Prog, appendFails: bool): Outcome {
    if p.ReserveRead? || p.ReserveCheck? then ActReserve(cfg, sh, hist, p)
    else if p.ReconcileRead? || p.EditRead? || p.EditSwap? then ActEdit(cfg, sh, p)
    else if p.ReserveDone? || p.SettleDone? || p.EditDone? || p.Lost? then Local(sh, p)
    else ActSettle(cfg, sh, p, appendFails)
  }

  // --- runs ---------------------------------------------------------------------------------------------------

  type Cid = nat

  datatype Step =
    | Tick(elapsed: nat)
    | Begin(cid: Cid, op: Op)
    | Run(cid: Cid, appendFails: bool)
    | Crash(cid: Cid)

  // `requested`, `admitted`, `wrote` and `over` only record what happened; no action looks at them.
  datatype State = State(
    sh: Shared,
    calls: map<Cid, Prog>,
    requested: set<Rid>,             // ids of all reserve calls begun
    admitted: set<Rid>,              // ids a reserve swap has let in
    wrote: set<Cid>,                 // calls that changed the store or the ledger
    over: PerLane)                   // per lane: how far steps other than admissions have raised its load

  ghost function MarkedIds(store: Store): set<Rid> { set k | k in store && k.MarkerKey? :: k.rid }

  // What a lane has used in the current period plus what live reservations hold back.
  ghost function Load(sh: Shared, a: Addr, m: Metric): int {
    Get(Used(sh.store, a, sh.clock), m) + Held(RowsOf(sh.store), a, m, sh.clock)
  }

  ghost function Rise(before: Shared, after: Shared, a: Addr, m: Metric): nat {
    if Load(after, a, m) > Load(before, a, m) then Load(after, a, m) - Load(before, a, m) else 0
  }

  type PerLane = imap<(Addr, Metric), nat>

  ghost function At(over: PerLane, a: Addr, m: Metric): nat { if (a, m) in over then over[(a, m)] else 0 }

  ghost function Raised(over: PerLane, before: Shared, after: Shared): PerLane {
    imap k: (Addr, Metric) :: At(over, k.0, k.1) + Rise(before, after, k.0, k.1)
  }

  ghost function History(s: State): Snapshot { Snapshot(None, s.admitted, MarkedIds(s.sh.store)) }

  ghost function Next(cfg: Config, s: State, step: Step): State {
    match step
    case Tick(elapsed) => s.(sh := s.sh.(clock := s.sh.clock + elapsed))
    case Begin(c, op) =>
      if c in s.calls || (op.EditOp? && op.edit.Confirm?) then s     // Confirm only follows a settlement
      else s.(calls := s.calls[c := Start(cfg, op, s.sh.clock)],
              requested := if op.ReserveOp? then s.requested + {op.req.rid} else s.requested)
    case Crash(c) => if c in s.calls then s.(calls := s.calls[c := Lost]) else s
    case Run(c, appendFails) =>
      if c !in s.calls then s
      else
        var o := Act(cfg, s.sh, History(s), s.calls[c], appendFails);
        var sh := Shared(s.sh.clock, o.store, o.ledger);
        State(sh, s.calls[c := o.prog], s.requested, s.admitted + o.admits,
              if sh != s.sh then s.wrote + {c} else s.wrote,
              if o.admits != {} then s.over else Raised(s.over, s.sh, sh))
  }

  ghost function Initial(clock: Time): State {
    State(Shared(clock, map[], []), map[], {}, {}, {}, imap[])
  }

  ghost function Exec(cfg: Config, clock: Time, steps: seq<Step>): State {
    if steps == [] then Initial(clock)
    else Next(cfg, Exec(cfg, clock, steps[..|steps| - 1]), steps[|steps| - 1])
  }

  lemma ExecAppend(cfg: Config, clock: Time, steps: seq<Step>, step: Step)
    ensures Exec(cfg, clock, steps + [step]) == Next(cfg, Exec(cfg, clock, steps), step)
  {
    hide Next;
    assert (steps + [step])[..|steps|] == steps;
  }
}
