/** Requests, quota lanes and the reservation table: what a row holds back, and the rewrites of the table that
    admission, the sweeper and the reconciler perform. Money is counted in units of 1e-8 USD, the precision the
    counters are rounded to. */
module Reservations {
  import opened Prelude
  import opened FiniteSums
  import opened Calendar

  type Rid = string

  datatype Lane = PrincipalLane | UserLane | KeyLane | TokenLane

  datatype Addr = Addr(lane: Lane, subject: string, period: Period)

  datatype Metric = Usd | Tokens | Requests

  datatype Charge = Charge(usd: nat, tokens: nat)

  function Amount(c: Charge, m: Metric): nat {
    match m
    case Usd => c.usd
    case Tokens => c.tokens
    case Requests => 1
  }

  datatype Totals = Totals(usd: nat, tokens: nat, requests: nat)

  const ZERO := Totals(0, 0, 0)

  function Get(t: Totals, m: Metric): nat {
    match m
    case Usd => t.usd
    case Tokens => t.tokens
    case Requests => t.requests
  }

  function Plus(t: Totals, c: Charge): Totals {
    Totals(t.usd + c.usd, t.tokens + c.tokens, t.requests + 1)
  }

  // --- reservation rows ------------------------------------------------------------------------------

  datatype RowState = Reserved | Forwarding | Streaming | Uncertain | Released | Settled

  datatype Row = Row(
    state: RowState,
    createdAt: Option<Time>,
    expiresAt: Option<Time>,
    estimate: Charge,
    lanes: seq<Addr>,
    principal: string,
    key: string,
    actualUsd: Option<nat>,
    actualTokens: Option<nat>,
    settledAt: Option<Time>,
    updatedAt: Option<Time>,
    reconciledAt: Option<Time>)

  datatype Table = Table(rows: map<Rid, Row>, updatedAt: Time)

  predicate Expired(r: Row, now: Time) { r.expiresAt.Some? && r.expiresAt.value < now }

  // Whether a row counts against the quota at a moment.
  predicate Live(r: Row, now: Time) {
    && r.state != Settled && r.state != Released
    && !(r.state == Reserved && Expired(r, now))
  }

  function HoldOf(r: Row, a: Addr, m: Metric, now: Time): nat {
    if Live(r, now) && a in r.lanes then Amount(r.estimate, m) else 0
  }

  // The reserved total of a lane: the estimates of all live rows that list it.
  ghost function Held(rows: map<Rid, Row>, a: Addr, m: Metric, now: Time): int {
    Sum(rows.Keys, rid => if rid in rows then HoldOf(rows[rid], a, m, now) else 0)
  }

  // `_reserved_totals`: the loop over all rows.
  method ReservedTotals(rows: map<Rid, Row>, a: Addr, now: Time) returns (out: Totals)
    ensures forall m :: Get(out, m) == Held(rows, a, m, now)
  {
    out := ZERO;
    var todo := rows.Keys;
    while todo != {}
      invariant todo <= rows.Keys
      invariant forall m :: Get(out, m) + Sum(todo, rid => if rid in rows then HoldOf(rows[rid], a, m, now) else 0)
                            == Held(rows, a, m, now)
      decreases |todo|
    {
      var rid :| rid in todo;
      var row := rows[rid];
      forall m { SumRemove(todo, rid => if rid in rows then HoldOf(rows[rid], a, m, now) else 0, rid); }
      todo := todo - {rid};
      if row.state == Settled || row.state == Released { continue; }
      if row.state == Reserved && row.expiresAt.Some? && row.expiresAt.value < now { continue; }
      if a in row.lanes {
        out := Totals(out.usd + row.estimate.usd, out.tokens + row.estimate.tokens, out.requests + 1);
      }
    }
  }

  lemma HeldAgrees(rows: map<Rid, Row>, rows': map<Rid, Row>, a: Addr, m: Metric, now: Time, now': Time)
    requires rows.Keys == rows'.Keys
    requires forall rid :: rid in rows ==> HoldOf(rows[rid], a, m, now) == HoldOf(rows'[rid], a, m, now')
    ensures Held(rows, a, m, now) == Held(rows', a, m, now')
  {
    SumAgrees(rows.Keys, rid => if rid in rows then HoldOf(rows[rid], a, m, now) else 0,
              rid => if rid in rows' then HoldOf(rows'[rid], a, m, now') else 0);
  }

  lemma HeldBelow(rows: map<Rid, Row>, rows': map<Rid, Row>, a: Addr, m: Metric, now: Time, now': Time)
    requires rows.Keys == rows'.Keys
    requires forall rid :: rid in rows ==> HoldOf(rows[rid], a, m, now) <= HoldOf(rows'[rid], a, m, now')
    ensures Held(rows, a, m, now) <= Held(rows', a, m, now')
  {
    SumBelow(rows.Keys, rid => if rid in rows then HoldOf(rows[rid], a, m, now) else 0,
             rid => if rid in rows' then HoldOf(rows'[rid], a, m, now') else 0);
  }

  // Changing or adding one row changes the total by exactly that row's hold.
  lemma HeldUpdate(rows: map<Rid, Row>, rid: Rid, row: Row, a: Addr, m: Metric, now: Time)
    ensures Held(rows[rid := row], a, m, now)
            == Held(rows, a, m, now) - (if rid in rows then HoldOf(rows[rid], a, m, now) else 0) + HoldOf(row, a, m, now)
  {
    var rows' := rows[rid := row];
    var f := r => if r in rows then HoldOf(rows[r], a, m, now) else 0;
    var g := r => if r in rows' then HoldOf(rows'[r], a, m, now) else 0;
    SumRemove(rows'.Keys, g, rid);
    if rid in rows {
      SumRemove(rows.Keys, f, rid);
      assert rows'.Keys == rows.Keys;
    } else {
      assert rows'.Keys - {rid} == rows.Keys;
    }
    SumAgrees(rows.Keys - {rid}, f, g);
    assert rows.Keys - {rid} == rows'.Keys - {rid};
  }

  // Time passing can only let reservations lapse.
  lemma HeldFalls(rows: map<Rid, Row>, a: Addr, m: Metric, now: Time, later: Time)
    requires now <= later
    ensures Held(rows, a, m, later) <= Held(rows, a, m, now)
  {
    HeldBelow(rows, rows, a, m, later, now);
  }

  // --- pruning on admission --------------------------------------------------------------------------

  function Prune(rows: map<Rid, Row>): map<Rid, Row> {
    map rid | rid in rows && rows[rid].state != Settled && rows[rid].state != Released :: rows[rid]
  }

  // Dropping settled and released rows changes no lane's total, now or later.
  lemma PruneNeutral(rows: map<Rid, Row>, a: Addr, m: Metric, now: Time)
    ensures Held(Prune(rows), a, m, now) == Held(rows, a, m, now)
  {
    var kept := Prune(rows);
    var f := rid => if rid in rows then HoldOf(rows[rid], a, m, now) else 0;
    SumRestrict(rows.Keys, kept.Keys, f);
    SumAgrees(kept.Keys, f, rid => if rid in kept then HoldOf(kept[rid], a, m, now) else 0);
  }

  // --- the stale-reservation sweep -----------------------------------------------------------------------

  function SweepRow(r: Row, now: Time): Row {
    if !Expired(r, now) then r
    else if r.state == Forwarding || r.state == Streaming then r.(state := Uncertain, updatedAt := Some(now))
    else if r.state == Reserved then r.(state := Released, updatedAt := Some(now))
    else r
  }

  function Sweep(rows: map<Rid, Row>, now: Time): map<Rid, Row> {
    map rid | rid in rows :: SweepRow(rows[rid], now)
  }

  predicate TurnsUncertain(r: Row, now: Time) { Expired(r, now) && (r.state == Forwarding || r.state == Streaming) }

  predicate TurnsReleased(r: Row, now: Time) { Expired(r, now) && r.state == Reserved }

  // A sweep at `now` moves rows between states without moving any lane's total, at `now` and ever after.
  lemma SweepNeutral(rows: map<Rid, Row>, a: Addr, m: Metric, now: Time, later: Time)
    requires now <= later
    ensures Held(Sweep(rows, now), a, m, later) == Held(rows, a, m, later)
  {
    HeldAgrees(rows, Sweep(rows, now), a, m, later, later);
  }

  // What a sweep does to each row: past its deadline a reservation is released and a request that was being forwarded
  // turns uncertain, so that no row past its deadline is left in one of these states; nothing but the state and the
  // time stamp of such a row changes, and no row is added or dropped.
  lemma SweepLeavesNothingStale(rows: map<Rid, Row>, now: Time, rid: Rid)
    requires rid in rows
    ensures Sweep(rows, now).Keys == rows.Keys
    ensures var r, r' := rows[rid], Sweep(rows, now)[rid];
            var open_ := r.state == Reserved || r.state == Forwarding || r.state == Streaming;
            && (r.expiresAt.Some? && r.expiresAt.value < now && open_ ==>
                  && r'.state == (if r.state == Reserved then Released else Uncertain) && r'.updatedAt == Some(now)
                  && SameTerms(r, r') && SameFigures(r, r'))
            && (!(r.expiresAt.Some? && r.expiresAt.value < now && open_) ==> r' == r)
  {
  }

  // What a row was admitted with, and the figures that come later.
  predicate SameTerms(r: Row, r': Row) {
    && r'.createdAt == r.createdAt && r'.expiresAt == r.expiresAt && r'.estimate == r.estimate && r'.lanes == r.lanes
    && r'.principal == r.principal && r'.key == r.key
  }

  predicate SameFigures(r: Row, r': Row) {
    r'.actualUsd == r.actualUsd && r'.actualTokens == r.actualTokens && r'.settledAt == r.settledAt && r'.reconciledAt == r.reconciledAt
  }

  lemma OneRowLess(rows: map<Rid, Row>, next: map<Rid, Row>, rid: Rid, a: Addr, m: Metric, at: Time)
    requires rows.Keys == next.Keys && rid in rows
    requires forall r :: r in rows ==> HoldOf(next[r], a, m, at) <= HoldOf(rows[r], a, m, at)
    requires HoldOf(next[rid], a, m, at) < HoldOf(rows[rid], a, m, at)
    ensures Held(next, a, m, at) < Held(rows, a, m, at)
  {
    hide HoldOf;
    var f := r => if r in rows then HoldOf(rows[r], a, m, at) else 0;
    var g := r => if r in next then HoldOf(next[r], a, m, at) else 0;
    SumRemove(rows.Keys, f, rid);
    SumRemove(rows.Keys, g, rid);
    SumBelow(rows.Keys - {rid}, g, f);
  }

  // Before `now` the swept reservations still counted: the sweep is neutral for a reader at an earlier clock
  // exactly when it releases nothing that is live there and charges the lane.
  lemma SweepNeutralExactly(rows: map<Rid, Row>, a: Addr, m: Metric, now: Time, at: Time)
    ensures Held(Sweep(rows, now), a, m, at) == Held(rows, a, m, at)
            <==> forall rid :: rid in rows && TurnsReleased(rows[rid], now) ==> HoldOf(rows[rid], a, m, at) == 0
  {
    hide Held;
    if forall rid :: rid in rows && TurnsReleased(rows[rid], now) ==> HoldOf(rows[rid], a, m, at) == 0 {
      HeldAgrees(rows, Sweep(rows, now), a, m, at, at);
    } else {
      var rid :| rid in rows && TurnsReleased(rows[rid], now) && HoldOf(rows[rid], a, m, at) != 0;
      OneRowLess(rows, Sweep(rows, now), rid, a, m, at);
    }
  }

  // A second sweep at the same moment finds nothing to do.
  lemma SweepIdempotent(rows: map<Rid, Row>, now: Time)
    ensures Sweep(Sweep(rows, now), now) == Sweep(rows, now)
    ensures forall rid :: rid in Sweep(rows, now) ==>
              !TurnsUncertain(Sweep(rows, now)[rid], now) && !TurnsReleased(Sweep(rows, now)[rid], now)
  {
  }

  ghost function CountUncertain(rows: map<Rid, Row>, now: Time): int {
    Sum(rows.Keys, rid => if rid in rows && TurnsUncertain(rows[rid], now) then 1 else 0)
  }

  ghost function CountReleased(rows: map<Rid, Row>, now: Time): int {
    Sum(rows.Keys, rid => if rid in rows && TurnsReleased(rows[rid], now) then 1 else 0)
  }

  datatype Changed = Changed(uncertain: nat, released: nat)

  // The body of the sweeper's loop: what becomes of one row, and what it adds to the counts.
  method ClassifyRow(row: Row, now: Time) returns (value: Row, changed: Changed)
    ensures value == SweepRow(row, now)
    ensures changed == Changed(if TurnsUncertain(row, now) then 1 else 0, if TurnsReleased(row, now) then 1 else 0)
  {
    value, changed := row, Changed(0, 0);
    if !(row.expiresAt.Some? && row.expiresAt.value < now) { return; }
    if row.state == Forwarding || row.state == Streaming {
      value := row.(state := Uncertain, updatedAt := Some(now));
      changed := Changed(1, 0);
    } else if row.state == Reserved {
      value := row.(state := Released, updatedAt := Some(now));
      changed := Changed(0, 1);
    }
  }

  // `expire_stale_reservations`, the loop that classifies abandoned rows and counts them.
  method ClassifyStale(rows: map<Rid, Row>, now: Time) returns (swept: map<Rid, Row>, changed: Changed)
    ensures swept == Sweep(rows, now)
    ensures changed.uncertain == CountUncertain(rows, now) && changed.released == CountReleased(rows, now)
  {
    hide SweepRow, TurnsUncertain, TurnsReleased, Sum;
    swept, changed := rows, Changed(0, 0);
    var todo := rows.Keys;
    while todo != {}
      invariant todo <= rows.Keys == swept.Keys
      invariant forall rid :: rid in rows ==> swept[rid] == if rid in todo then rows[rid] else SweepRow(rows[rid], now)
      invariant changed.uncertain + Sum(todo, rid => if rid in rows && TurnsUncertain(rows[rid], now) then 1 else 0)
                == CountUncertain(rows, now)
      invariant changed.released + Sum(todo, rid => if rid in rows && TurnsReleased(rows[rid], now) then 1 else 0)
                == CountReleased(rows, now)
      decreases |todo|
    {
      var rid :| rid in todo;
      SumRemove(todo, rid => if rid in rows && TurnsUncertain(rows[rid], now) then 1 else 0, rid);
      SumRemove(todo, rid => if rid in rows && TurnsReleased(rows[rid], now) then 1 else 0, rid);
      todo := todo - {rid};
      var value, one := ClassifyRow(rows[rid], now);
      changed := Changed(changed.uncertain + one.uncertain, changed.released + one.released);
      swept := swept[rid := value];
    }
    SumEmpty((rid: Rid) => if rid in rows && TurnsUncertain(rows[rid], now) then 1 else 0);
    SumEmpty((rid: Rid) => if rid in rows && TurnsReleased(rows[rid], now) then 1 else 0);
  }

  // The counts are zero exactly when the sweep leaves the table as it was.
  lemma CountsZeroExactly(rows: map<Rid, Row>, now: Time)
    ensures CountUncertain(rows, now) >= 0 && CountReleased(rows, now) >= 0
    ensures CountUncertain(rows, now) == 0 && CountReleased(rows, now) == 0 <==> Sweep(rows, now) == rows
  {
    var f := rid => if rid in rows && TurnsUncertain(rows[rid], now) then 1 else 0;
    var g := rid => if rid in rows && TurnsReleased(rows[rid], now) then 1 else 0;
    var zero := (rid: Rid) => 0;
    SumRestrict(rows.Keys, {}, zero);
    SumBelow(rows.Keys, zero, f);
    SumBelow(rows.Keys, zero, g);
    if rid :| rid in rows && (TurnsUncertain(rows[rid], now) || TurnsReleased(rows[rid], now)) {
      assert Sweep(rows, now)[rid].state != rows[rid].state;
      SumRemove(rows.Keys, f, rid);
      SumRemove(rows.Keys, g, rid);
      SumRemove(rows.Keys, zero, rid);
      SumBelow(rows.Keys - {rid}, zero, f);
      SumBelow(rows.Keys - {rid}, zero, g);
    } else {
      SumAgrees(rows.Keys, f, zero);
      SumAgrees(rows.Keys, g, zero);
    }
  }

  // --- the queue of uncertain requests ---------------------------------------------------------------------

  function UncertainRequests(rows: map<Rid, Row>): set<Rid> {
    set rid | rid in rows && rows[rid].state == Uncertain && rows[rid].reconciledAt.None?
  }

  // No abandoned request is lost: after a sweep every row that was being forwarded past its deadline, and had
  // not been reconciled, is in the operators' queue, and nothing leaves the queue.
  lemma SweepQueuesAbandoned(rows: map<Rid, Row>, now: Time)
    ensures UncertainRequests(Sweep(rows, now))
            == UncertainRequests(rows) + set rid | rid in rows && TurnsUncertain(rows[rid], now) && rows[rid].reconciledAt.None?
  {
  }
}
