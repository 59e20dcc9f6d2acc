/** Review windows. A review run freezes the evidence recorded since the checkpoint; completing it moves the
    checkpoint to the end of that frozen window. */
module ReviewWindows {
  import opened Prelude
  import opened TextOrder

  datatype Cursor = Cursor(ts: nat, request: string)

  const EPOCH := Cursor(0, "")

  // Python's order on (timestamp, request id) pairs.
  predicate Before(a: Cursor, b: Cursor) { a.ts < b.ts || (a.ts == b.ts && Less(a.request, b.request)) }

  datatype Row =
    | HistoryRow(cursor: Cursor)
    | UsageRow(cursor: Cursor, usd: nat, tokens: nat)

  function Usd(rows: seq<Row>): nat {
    if rows == [] then 0
    else Usd(rows[..|rows| - 1]) + if rows[|rows| - 1].UsageRow? then rows[|rows| - 1].usd else 0
  }

  function Tokens(rows: seq<Row>): nat {
    if rows == [] then 0
    else Tokens(rows[..|rows| - 1]) + if rows[|rows| - 1].UsageRow? then rows[|rows| - 1].tokens else 0
  }

  // The rows after a checkpoint.
  function After(rows: seq<Row>, c: Cursor): seq<Row> {
    if rows == [] then []
    else After(rows[..|rows| - 1], c) + if Before(c, rows[|rows| - 1].cursor) then [rows[|rows| - 1]] else []
  }

  // `max(candidates, key=_cursor)`, or the checkpoint when there is no candidate.
  function Latest(rows: seq<Row>, c: Cursor): Cursor {
    if rows == [] then c
    else
      var rest := Latest(rows[..|rows| - 1], c);
      if |rows| == 1 || Before(rest, rows[|rows| - 1].cursor) then rows[|rows| - 1].cursor else rest
  }

  // The parts of a status that a review hands on: where it starts, where it ends, what it adds up to.
  datatype Status = Status(checkpoint: Cursor, latest: Cursor, records: nat, usd: nat, tokens: nat)

  function StatusOf(evidence: seq<Row>, checkpoint: Option<Cursor>): Status {
    var start := if checkpoint.Some? then checkpoint.value else EPOCH;
    var rows := After(evidence, start);
    Status(start, Latest(rows, start), |rows|, Usd(rows), Tokens(rows))
  }

  datatype Run = Run(completed: bool, expires: nat, status: Status)

  datatype ReviewError = RunNotOpen | RunExpired | CheckpointConflict

  // What a call that completes a run has read, and when.
  datatype Seen = Seen(checkpoint: Option<Cursor>, run: Run, time: nat)

  datatype Board = Board(evidence: seq<Row>, checkpoint: Option<Cursor>, runs: map<string, Run>)

  function CheckpointOf(b: Board): Cursor { if b.checkpoint.Some? then b.checkpoint.value else EPOCH }

  function Started(b: Board, id: string, now: nat, ttl: nat): Board {
    b.(runs := b.runs[id := Run(false, now + ttl, StatusOf(b.evidence, b.checkpoint))])
  }

  // Completing a run goes by what the call has read. The code compares the target with the cursor of that
  // checkpoint read under field names the checkpoint does not have, which is always the epoch.
  predicate Admissible(seen: Seen) {
    !seen.run.completed && seen.time < seen.run.expires && Before(EPOCH, seen.run.status.latest)
  }

  predicate Unmoved(b: Board, id: string, seen: Seen) { b.checkpoint == seen.checkpoint && id in b.runs && b.runs[id] == seen.run }

  predicate Completes(b: Board, id: string, seen: Seen) { Admissible(seen) && Unmoved(b, id, seen) }

  function Advanced(b: Board, id: string, seen: Seen): Board {
    if Completes(b, id, seen) then
      b.(checkpoint := Some(b.runs[id].status.latest), runs := b.runs[id := b.runs[id].(completed := true)])
    else b
  }

  function Reading(b: Board, id: string, now: nat): Seen
    requires id in b.runs
  {
    Seen(b.checkpoint, b.runs[id], now)
  }

  // Without a run id the target comes from a status given by the caller, unless that ends beyond the evidence.
  function Target(b: Board, supplied: Option<Status>): Cursor {
    var computed := StatusOf(b.evidence, b.checkpoint).latest;
    if supplied.Some? && !Before(computed, supplied.value.latest) then supplied.value.latest else computed
  }

  class ReviewStore {
    var evidence: seq<Row>
    var checkpoint: Option<Cursor>
    var runs: map<string, Run>
    const ttl: nat

    ghost function State(): Board
      reads this
    {
      Board(evidence, checkpoint, runs)
    }

    constructor (ttl: nat)
      ensures State() == Board([], None, map[]) && this.ttl == ttl
    {
      evidence, checkpoint, runs := [], None, map[];
      this.ttl := ttl;
    }

    method RecordRow(row: Row)
      modifies this`evidence
      ensures evidence == old(evidence) + [row]
    {
      evidence := evidence + [row];
    }

    method StartReviewRun(id: string, now: nat) returns (status: Status)
      modifies this`runs
      ensures State() == Started(old(State()), id, now, ttl) && status == State().runs[id].status
    {
      status := StatusOf(evidence, checkpoint);
      runs := runs[id := Run(false, now + ttl, status)];
    }

    // The run must be open and not expired.
    method OpenRun(id: string, now: nat) returns (r: Result<Seen, ReviewError>)
      ensures r == if id !in runs || runs[id].completed then Err(RunNotOpen)
                   else if runs[id].expires <= now then Err(RunExpired)
                   else Ok(Reading(State(), id, now))
    {
      if id !in runs || runs[id].completed { return Err(RunNotOpen); }
      if runs[id].expires <= now { return Err(RunExpired); }
      return Ok(Seen(checkpoint, runs[id], now));
    }

    // The rest of the call, on what it has read: other calls may have come in between.
    method CompleteRun(id: string, seen: Seen) returns (r: Result<Option<Cursor>, ReviewError>)
      requires !seen.run.completed && seen.time < seen.run.expires
      modifies this`checkpoint, this`runs
      ensures State() == Advanced(old(State()), id, seen)
      ensures r == if !Before(EPOCH, seen.run.status.latest) then Ok(seen.checkpoint)
                   else if Unmoved(old(State()), id, seen) then Ok(Some(seen.run.status.latest))
                   else Err(CheckpointConflict)
    {
      var target := seen.run.status.latest;
      CursorOrder(target, EPOCH);
      if target == EPOCH || Before(target, EPOCH) { return Ok(seen.checkpoint); }
      if checkpoint != seen.checkpoint || id !in runs || runs[id] != seen.run { return Err(CheckpointConflict); }
      checkpoint := Some(target);
      runs := runs[id := seen.run.(completed := true)];
      return Ok(checkpoint);
    }

    method AdvanceReviewCheckpoint(id: Option<string>, supplied: Option<Status>, now: nat) returns (r: Result<Option<Cursor>, ReviewError>)
      modifies this`checkpoint, this`runs
      ensures State() == if id.None? then old(State()).(checkpoint := Some(Target(old(State()), supplied)))
                         else if id.value in old(runs) then Advanced(old(State()), id.value, Reading(old(State()), id.value, now))
                         else old(State())
      ensures r == if id.None? then Ok(Some(Target(old(State()), supplied)))
                   else if id.value !in old(runs) || old(runs)[id.value].completed then Err(RunNotOpen)
                   else if old(runs)[id.value].expires <= now then Err(RunExpired)
                   else Ok(checkpoint)
    {
      if id.Some? {
        var seen := OpenRun(id.value, now);
        if seen.Err? { return Err(seen.error); }
        r := CompleteRun(id.value, seen.value);
      } else {
        var status := StatusOf(evidence, checkpoint);
        if supplied.Some? && !Before(status.latest, supplied.value.latest) { status := supplied.value; }
        checkpoint := Some(status.latest);
        return Ok(checkpoint);
      }
    }
  }

  lemma CursorOrder(a: Cursor, b: Cursor)
    ensures Before(a, b) || a == b || Before(b, a)
    ensures !(Before(a, b) && Before(b, a)) && !Before(a, a)
  {
    LessTotal(a.request, b.request);
    LessIrreflexive(a.request);
    if Less(a.request, b.request) && Less(b.request, a.request) { LessTransitive(a.request, b.request, a.request); }
  }

  // Rows are ordered by time, and at one time by request id.
  lemma ByTimeThenRequest(a: Cursor, b: Cursor)
    ensures a.ts < b.ts ==> Before(a, b)
    ensures a.ts == b.ts ==> (Before(a, b) <==> Less(a.request, b.request))
  {
  }

  // A completion that goes by what the call read in `b` and takes place in `later`: it happens if and only if the
  // run was open, unexpired and not empty when it was read, and neither the checkpoint nor the run has changed since.
  lemma CompletionExactly(b: Board, id: string, now: nat, later: Board)
    requires id in b.runs
    ensures var run := b.runs[id];
            Advanced(later, id, Reading(b, id, now))
            == if !run.completed && now < run.expires && (run.status.latest.ts > 0 || run.status.latest.request != "")
                  && later.checkpoint == b.checkpoint && id in later.runs && later.runs[id] == run
               then Board(later.evidence, Some(run.status.latest), later.runs[id := Run(true, run.expires, run.status)])
               else later
  {
  }

  // So of all calls that read the same checkpoint at most one moves it.
  lemma OneCompletionPerReading(b: Board, id: string, now: nat, other: string, later: nat)
    requires id in b.runs && other in b.runs && b.checkpoint != Some(b.runs[id].status.latest)
    ensures var after := Advanced(b, id, Reading(b, id, now));
            after == b || Advanced(after, other, Reading(b, other, later)) == after
  {
    hide Before;
  }

  // What one row adds to the sums of a window; with SumsSplit the sums are the sums over all rows.
  lemma OneRow(row: Row)
    ensures Usd([row]) == (if row.UsageRow? then row.usd else 0) && Tokens([row]) == if row.UsageRow? then row.tokens else 0
    ensures Usd([]) == 0 == Tokens([])
  {
    assert [row][..0] == [];
  }

  // --- a status on evidence in cursor order ---------------------------------------------------------------------

  ghost predicate Ordered(rows: seq<Row>) {
    && (forall i :: 0 <= i < |rows| ==> Before(EPOCH, rows[i].cursor))
    && (forall i, j :: 0 <= i < j < |rows| ==> Before(rows[i].cursor, rows[j].cursor))
  }

  // The checkpoint that has everything up to row `k` behind it.
  function Mark(rows: seq<Row>, k: nat): Cursor
    requires k <= |rows|
  {
    if k == 0 then EPOCH else rows[k - 1].cursor
  }

  lemma {:induction false} AfterIsSuffix(rows: seq<Row>, k: nat)
    requires Ordered(rows) && k <= |rows|
    ensures After(rows, Mark(rows, k)) == rows[k..]
    decreases |rows|
  {
    hide Before;
    if rows != [] {
      var n := |rows| - 1;
      var last := rows[n];
      CursorOrder(Mark(rows, k), last.cursor);
      if k == |rows| {
        AfterIsNone(rows[..n], last.cursor);
      } else {
        AfterIsSuffix(rows[..n], k);
        assert rows[..n][k..] + [last] == rows[k..];
      }
    }
  }

  lemma {:induction false} AfterIsNone(rows: seq<Row>, c: Cursor)
    requires forall i :: 0 <= i < |rows| ==> Before(rows[i].cursor, c)
    ensures After(rows, c) == []
  {
    if rows != [] {
      AfterIsNone(rows[..|rows| - 1], c);
      CursorOrder(c, rows[|rows| - 1].cursor);
    }
  }

  lemma {:induction false} LatestIsLast(rows: seq<Row>, c: Cursor)
    requires Ordered(rows)
    ensures Latest(rows, c) == if rows == [] then c else rows[|rows| - 1].cursor
  {
    if |rows| > 1 { LatestIsLast(rows[..|rows| - 1], c); }
  }

  // With a checkpoint at row k a status covers exactly the rows from k to the end and ends at the last of them.
  lemma StatusCovers(rows: seq<Row>, checkpoint: Option<Cursor>, k: nat)
    requires Ordered(rows) && k <= |rows| && (if checkpoint.Some? then checkpoint.value else EPOCH) == Mark(rows, k)
    ensures StatusOf(rows, checkpoint) == Status(Mark(rows, k), Mark(rows, |rows|), |rows| - k, Usd(rows[k..]), Tokens(rows[k..]))
  {
    AfterIsSuffix(rows, k);
    LatestIsLast(rows[k..], Mark(rows, k));
  }

  // Whatever status a caller brings along, the checkpoint stays within the evidence.
  lemma TargetWithinEvidence(b: Board, k: nat, supplied: Option<Status>)
    requires Ordered(b.evidence) && k <= |b.evidence| && CheckpointOf(b) == Mark(b.evidence, k)
    ensures !Before(Mark(b.evidence, |b.evidence|), Target(b, supplied))
    ensures Target(b, supplied) == if supplied.Some? && !Before(Mark(b.evidence, |b.evidence|), supplied.value.latest)
                                   then supplied.value.latest else Mark(b.evidence, |b.evidence|)
  {
    StatusCovers(b.evidence, b.checkpoint, k);
    CursorOrder(Mark(b.evidence, |b.evidence|), Mark(b.evidence, |b.evidence|));
  }
}

/** Runs of recording, starting and completing reviews: the completed windows partition the evidence. A completion
    goes by whatever its call has read before. */
module ReviewRuns {
  import opened Prelude
  import opened TextOrder
  import opened ReviewWindows

  datatype Op = Arrive(row: Row) | Begin(id: string) | Finish(id: string, seen: Seen) | Tick(elapsed: nat)

  // `frozen` and `reviewed` record, for the proofs, which rows each run froze and which were completed in order.
  datatype World = World(board: Board, clock: nat, done: nat, frozen: map<string, (nat, nat)>, reviewed: seq<seq<Row>>,
                         statuses: seq<Status>, finished: seq<string>)

  function Step(ttl: nat, w: World, op: Op): World {
    match op
    case Arrive(row) => w.(board := w.board.(evidence := w.board.evidence + [row]))
    case Tick(elapsed) => w.(clock := w.clock + elapsed)
    case Begin(id) =>
      if id in w.board.runs then w      // run ids are fresh
      else w.(board := Started(w.board, id, w.clock, ttl), frozen := w.frozen[id := (w.done, |w.board.evidence|)])
    case Finish(id, seen) =>
      if !Completes(w.board, id, seen) then w
      else
        var (k, n) := if id in w.frozen then w.frozen[id] else (0, 0);
        World(Advanced(w.board, id, seen), w.clock, n, w.frozen,
              w.reviewed + [if k <= n <= |w.board.evidence| then w.board.evidence[k..n] else []],
              w.statuses + [w.board.runs[id].status], w.finished + [id])
  }

  function Exec(ttl: nat, ops: seq<Op>): World {
    if ops == [] then World(Board([], None, map[]), 0, 0, map[], [], [], [])
    else Step(ttl, Exec(ttl, ops[..|ops| - 1]), ops[|ops| - 1])
  }

  // Rows arrive in increasing cursor order; a run is completed before any other review moves the checkpoint.
  ghost predicate Fits(w: World, op: Op) {
    match op
    case Arrive(row) => Before(EPOCH, row.cursor) && forall i :: 0 <= i < |w.board.evidence| ==> Before(w.board.evidence[i].cursor, row.cursor)
    case Finish(id, seen) => Completes(w.board, id, seen) ==> w.board.runs[id].status.checkpoint == CheckpointOf(w.board)
    case _ => true
  }

  ghost predicate Orderly(ttl: nat, ops: seq<Op>) {
    forall n :: 0 <= n < |ops| ==> Fits(Exec(ttl, ops[..n]), ops[n])
  }

  function Concat(windows: seq<seq<Row>>): seq<Row> { if windows == [] then [] else Concat(windows[..|windows| - 1]) + windows[|windows| - 1] }

  function TotalUsd(s: seq<Status>): nat { if s == [] then 0 else TotalUsd(s[..|s| - 1]) + s[|s| - 1].usd }

  function TotalTokens(s: seq<Status>): nat { if s == [] then 0 else TotalTokens(s[..|s| - 1]) + s[|s| - 1].tokens }

  ghost predicate Froze(rows: seq<Row>, run: Run, window: (nat, nat)) {
    var (k, n) := window;
    k <= n <= |rows| && run.status == Status(Mark(rows, k), Mark(rows, n), n - k, Usd(rows[k..n]), Tokens(rows[k..n]))
  }

  // The completed windows, put together, are the evidence up to the checkpoint: every row once, in order.
  ghost predicate Partition(w: World) {
    && w.done <= |w.board.evidence| && CheckpointOf(w.board) == Mark(w.board.evidence, w.done)
    && Concat(w.reviewed) == w.board.evidence[..w.done]
  }

  ghost predicate TotalsAgree(w: World)
    requires w.done <= |w.board.evidence|
  {
    && TotalUsd(w.statuses) == Usd(w.board.evidence[..w.done])
    && TotalTokens(w.statuses) == Tokens(w.board.evidence[..w.done])
  }

  ghost predicate RunsFrozen(w: World) {
    w.board.runs.Keys == w.frozen.Keys && forall id :: id in w.board.runs ==> Froze(w.board.evidence, w.board.runs[id], w.frozen[id])
  }

  ghost predicate OncePerRun(w: World) {
    && (forall i, j :: 0 <= i < j < |w.finished| ==> w.finished[i] != w.finished[j])
    && (forall i :: 0 <= i < |w.finished| ==> w.finished[i] in w.board.runs && w.board.runs[w.finished[i]].completed)
  }

  lemma {:induction false} SumsSplit(a: seq<Row>, b: seq<Row>)
    ensures Usd(a + b) == Usd(a) + Usd(b) && Tokens(a + b) == Tokens(a) + Tokens(b)
  {
    if b == [] {
      assert a + b == a;
    } else {
      assert (a + b)[..|a + b| - 1] == a + b[..|b| - 1];
      SumsSplit(a, b[..|b| - 1]);
    }
  }

  lemma MarksDiffer(rows: seq<Row>, a: nat, b: nat)
    requires Ordered(rows) && a <= |rows| && b <= |rows| && Mark(rows, a) == Mark(rows, b)
    ensures a == b
  {
    CursorOrder(Mark(rows, a), Mark(rows, b));
  }

  lemma FrozenKept(rows: seq<Row>, row: Row, run: Run, window: (nat, nat))
    requires Froze(rows, run, window)
    ensures Froze(rows + [row], run, window)
  {
    var (k, n) := window;
    assert (rows + [row])[k..n] == rows[k..n];
  }

  // What completing a run adds to the reviewed windows.
  lemma FinishAdds(ttl: nat, w: World, id: string, seen: Seen)
    requires RunsFrozen(w) && Completes(w.board, id, seen)
    ensures id in w.frozen
    ensures var w' := Step(ttl, w, Finish(id, seen));
            var (k, n) := w.frozen[id];
            && k <= n <= |w.board.evidence| && w'.board.evidence == w.board.evidence && w'.done == n
            && w.board.runs[id].status.checkpoint == Mark(w.board.evidence, k)
            && CheckpointOf(w'.board) == Mark(w.board.evidence, n)
            && Concat(w'.reviewed) == Concat(w.reviewed) + w.board.evidence[k..n]
            && TotalUsd(w'.statuses) == TotalUsd(w.statuses) + Usd(w.board.evidence[k..n])
            && TotalTokens(w'.statuses) == TotalTokens(w.statuses) + Tokens(w.board.evidence[k..n])
  {
    hide Usd, Tokens, Before;
    var w' := Step(ttl, w, Finish(id, seen));
    assert Froze(w.board.evidence, w.board.runs[id], w.frozen[id]);
    assert w'.reviewed[..|w.reviewed|] == w.reviewed;
    assert w'.statuses[..|w.statuses|] == w.statuses;
  }

  // Completing a run keeps the partition exactly if no other review has moved the checkpoint since it started.
  lemma FinishKeepsPartitionExactly(ttl: nat, w: World, id: string, seen: Seen)
    requires Ordered(w.board.evidence) && Partition(w) && RunsFrozen(w) && Completes(w.board, id, seen)
    ensures Partition(Step(ttl, w, Finish(id, seen))) <==> w.board.runs[id].status.checkpoint == CheckpointOf(w.board)
  {
    var rows := w.board.evidence;
    var (k, n) := w.frozen[id];
    FinishAdds(ttl, w, id, seen);
    if Mark(rows, k) == Mark(rows, w.done) { MarksDiffer(rows, k, w.done); }
    hide Step, Completes, Concat, Usd, Tokens, Before, RunsFrozen, TotalUsd, TotalTokens;
    if k == w.done { assert rows[..k] + rows[k..n] == rows[..n]; }
  }

  lemma FinishTotals(ttl: nat, w: World, id: string, seen: Seen)
    requires Ordered(w.board.evidence) && Partition(w) && TotalsAgree(w) && RunsFrozen(w) && Completes(w.board, id, seen)
    requires w.board.runs[id].status.checkpoint == CheckpointOf(w.board)
    ensures Step(ttl, w, Finish(id, seen)).done <= |w.board.evidence| && TotalsAgree(Step(ttl, w, Finish(id, seen)))
  {
    hide Step, Completes, Concat, Usd, Tokens, Before, RunsFrozen, TotalUsd, TotalTokens, Ordered, Mark;
    var rows := w.board.evidence;
    FinishAdds(ttl, w, id, seen);
    var (k, n) := w.frozen[id];
    MarksDiffer(rows, k, w.done);
    SumsSplit(rows[..k], rows[k..n]);
    assert rows[..k] + rows[k..n] == rows[..n];
  }

  ghost predicate Sound(w: World) {
    Ordered(w.board.evidence) && Partition(w) && TotalsAgree(w) && RunsFrozen(w) && OncePerRun(w)
  }

  lemma ArriveSound(ttl: nat, w: World, row: Row)
    requires Sound(w) && Fits(w, Arrive(row))
    ensures Sound(Step(ttl, w, Arrive(row)))
  {
    hide Concat, Usd, Tokens, Froze, Before;
    var w' := Step(ttl, w, Arrive(row));
    assert w'.board.evidence[..w.done] == w.board.evidence[..w.done];
    forall id | id in w.board.runs ensures Froze(w'.board.evidence, w.board.runs[id], w.frozen[id]) {
      FrozenKept(w.board.evidence, row, w.board.runs[id], w.frozen[id]);
    }
  }

  lemma BeginSound(ttl: nat, w: World, id: string)
    requires Sound(w)
    ensures Sound(Step(ttl, w, Begin(id)))
  {
    hide Concat, Before, Latest, After, Usd, Tokens, TotalUsd, TotalTokens, Mark;
    var rows := w.board.evidence;
    StatusCovers(rows, w.board.checkpoint, w.done);
    assert rows[w.done..|rows|] == rows[w.done..];
  }

  lemma FinishRuns(ttl: nat, w: World, id: string, seen: Seen)
    requires RunsFrozen(w) && OncePerRun(w)
    ensures RunsFrozen(Step(ttl, w, Finish(id, seen))) && OncePerRun(Step(ttl, w, Finish(id, seen)))
  {
    hide Usd, Tokens, Before, Mark;
  }

  lemma SoundStep(ttl: nat, w: World, op: Op)
    requires Sound(w) && Fits(w, op)
    ensures Sound(Step(ttl, w, op))
  {
    match op
    case Arrive(row) => ArriveSound(ttl, w, row);
    case Begin(id) => BeginSound(ttl, w, id);
    case Finish(id, seen) =>
      hide Before, Concat, Usd, Tokens, Froze, TotalUsd, TotalTokens, RunsFrozen, OncePerRun, Ordered, Partition, TotalsAgree;
      if Completes(w.board, id, seen) {
        FinishKeepsPartitionExactly(ttl, w, id, seen);
        FinishTotals(ttl, w, id, seen);
      }
      FinishRuns(ttl, w, id, seen);
    case Tick(_) =>
  }

  // Over every run whose reviews do not overlap: the completed windows partition the evidence up to the
  // checkpoint, their sums add up to all of it, no run completes twice, and the rows that arrived while a run was
  // open are in none of them yet.
  lemma {:induction false} WindowsPartitionEvidence(ttl: nat, ops: seq<Op>)
    requires Orderly(ttl, ops)
    ensures Sound(Exec(ttl, ops))
    ensures var w := Exec(ttl, ops);
            After(w.board.evidence, CheckpointOf(w.board)) == w.board.evidence[w.done..]
  {
    if ops != [] {
      var n := |ops| - 1;
      forall k | 0 <= k < n ensures Fits(Exec(ttl, ops[..n][..k]), ops[..n][k]) { assert ops[..n][..k] == ops[..k]; }
      WindowsPartitionEvidence(ttl, ops[..n]);
      hide Step, Sound, Fits;
      assert Fits(Exec(ttl, ops[..n]), ops[n]);
      SoundStep(ttl, Exec(ttl, ops[..n]), ops[n]);
    }
    hide Exec;
    AfterIsSuffix(Exec(ttl, ops).board.evidence, Exec(ttl, ops).done);
  }

  // --- overlapping runs --------------------------------------------------------------------------------------------

  const FIRST := UsageRow(Cursor(1, "r1"), 5, 50)
  const SECOND := UsageRow(Cursor(2, "r2"), 7, 70)

  // Completing a run on what stands at that moment.
  function Promptly(ops: seq<Op>, id: string): seq<Op> {
    var w := Exec(100, ops);
    ops + [Finish(id, if id in w.board.runs then Reading(w.board, id, w.clock) else Seen(None, Run(true, 0, StatusOf([], None)), 0))]
  }

  function Overlapping(): seq<Op> {
    Promptly(Promptly([Arrive(FIRST)] + [Begin("a")] + [Arrive(SECOND)] + [Begin("b")], "b"), "a")
  }

  lemma ExecAppend(ttl: nat, ops: seq<Op>, op: Op)
    ensures Exec(ttl, ops + [op]) == Step(ttl, Exec(ttl, ops), op)
  {
    assert (ops + [op])[..|ops|] == ops;
  }

  lemma RowsOrdered()
    ensures Ordered([FIRST]) && Ordered([FIRST, SECOND])
  {
  }

  lemma FrozenStatus(rows: seq<Row>)
    requires Ordered(rows) && rows != []
    ensures StatusOf(rows, None) == Status(EPOCH, rows[|rows| - 1].cursor, |rows|, Usd(rows), Tokens(rows))
  {
    hide Ordered, Usd, Tokens, StatusOf;
    StatusCovers(rows, None, 0);
    assert rows[0..] == rows;
  }

  // The world with the open runs that froze the given windows.
  function Opened(rows: seq<Row>, runs: map<string, Run>, frozen: map<string, (nat, nat)>): World {
    World(Board(rows, None, runs), 0, 0, frozen, [], [], [])
  }

  lemma ArriveAndBegin(ops: seq<Op>, row: Row, id: string, rows: seq<Row>, runs: map<string, Run>, frozen: map<string, (nat, nat)>)
    requires Exec(100, ops) == Opened(rows, runs, frozen) && id !in runs
    ensures Exec(100, ops + [Arrive(row)] + [Begin(id)])
            == Opened(rows + [row], runs[id := Run(false, 100, StatusOf(rows + [row], None))], frozen[id := (0, |rows + [row]|)])
  {
    hide Exec, StatusOf;
    ExecAppend(100, ops, Arrive(row));
    ExecAppend(100, ops + [Arrive(row)], Begin(id));
  }

  // Two open runs, the second of which froze one row more.
  lemma TwoOpen(ops: seq<Op>)
    requires ops == [Arrive(FIRST)] + [Begin("a")] + [Arrive(SECOND)] + [Begin("b")]
    ensures Exec(100, ops) == Opened([FIRST, SECOND],
              map["a" := Run(false, 100, Status(EPOCH, FIRST.cursor, 1, Usd([FIRST]), Tokens([FIRST])))]
                 ["b" := Run(false, 100, Status(EPOCH, SECOND.cursor, 2, Usd([FIRST, SECOND]), Tokens([FIRST, SECOND])))],
              map["a" := (0, 1)]["b" := (0, 2)])
  {
    hide Usd, Tokens, StatusOf, Step;
    assert Exec(100, []) == Opened([], map[], map[]);
    hide Exec, Opened;
    RowsOrdered();
    hide Ordered;
    FrozenStatus([FIRST]);
    FrozenStatus([FIRST, SECOND]);
    ArriveAndBegin([], FIRST, "a", [], map[], map[]);
    assert [] + [FIRST] == [FIRST] && [FIRST] + [SECOND] == [FIRST, SECOND];
    var half := [] + [Arrive(FIRST)] + [Begin("a")];
    assert half + [Arrive(SECOND)] + [Begin("b")] == ops;
    var a := Run(false, 100, StatusOf([FIRST], None));
    assert map[]["a" := a] == map["a" := a] && map[]["a" := (0, 1)] == map["a" := (0, 1)];
    ArriveAndBegin(half, SECOND, "b", [FIRST], map["a" := a], map["a" := (0, 1)]);
  }

  lemma FinishNow(w: World, id: string)
    requires id in w.board.runs && id in w.frozen && Admissible(Reading(w.board, id, w.clock))
    requires var (k, n) := w.frozen[id]; k <= n <= |w.board.evidence|
    ensures var w' := Step(100, w, Finish(id, Reading(w.board, id, w.clock)));
            var run := w.board.runs[id];
            && w'.board == Board(w.board.evidence, Some(run.status.latest), w.board.runs[id := run.(completed := true)])
            && w'.clock == w.clock && w'.frozen == w.frozen
            && w'.reviewed == w.reviewed + [w.board.evidence[w.frozen[id].0..w.frozen[id].1]]
  {
    hide Before;
  }

  // One more completion that goes by what stands at that moment.
  lemma PromptlyFinishes(ops: seq<Op>, id: string)
    requires var w := Exec(100, ops); id in w.board.runs && id in w.frozen && Admissible(Reading(w.board, id, w.clock))
    requires var (k, n) := Exec(100, ops).frozen[id]; k <= n <= |Exec(100, ops).board.evidence|
    ensures var w, w' := Exec(100, ops), Exec(100, Promptly(ops, id));
            var run := w.board.runs[id];
            && w'.board == Board(w.board.evidence, Some(run.status.latest), w.board.runs[id := run.(completed := true)])
            && w'.clock == w.clock && w'.frozen == w.frozen
            && w'.reviewed == w.reviewed + [w.board.evidence[w.frozen[id].0..w.frozen[id].1]]
  {
    hide Step, Exec, Before, StatusOf;
    FinishNow(Exec(100, ops), id);
    ExecAppend(100, ops, Promptly(ops, id)[|ops|]);
  }

  // Two runs that overlap: the one that froze less is completed last and takes the checkpoint back, so a row that
  // has been reviewed is put up for review again. Neither swap meets a conflict.
  lemma OverlapTakesCheckpointBack()
    ensures var w := Exec(100, Overlapping());
            && CheckpointOf(w.board) == FIRST.cursor && w.reviewed == [[FIRST, SECOND], [FIRST]]
            && w.board.evidence == [FIRST, SECOND]
  {
    var ops := [Arrive(FIRST)] + [Begin("a")] + [Arrive(SECOND)] + [Begin("b")];
    TwoOpen(ops);
    hide Exec, Promptly, StatusOf, Less;
    PromptlyFinishes(ops, "b");
    PromptlyFinishes(Promptly(ops, "b"), "a");
    assert [FIRST, SECOND][0..2] == [FIRST, SECOND] && [FIRST, SECOND][0..1] == [FIRST];
  }
}
