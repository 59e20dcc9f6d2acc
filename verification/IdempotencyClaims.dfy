/** Claims on one scope by many processes. Each read, swap, state write and removal is one step; the clock moves
    between any two. A claim only ever replaces a record that has expired. Claims therefore follow one another at
    least a whole retention apart, unless a claimant writes or removes the record late; which steps do that is
    stated exactly. */
module IdempotencyClaims {
  import opened Prelude
  import opened Idempotency

  type Cid = nat

  datatype Prog =
    | ClaimRead(mine: Record)                                                    // about to look
    | ClaimSwap(mine: Record, seen: Option<Record>)                              // about to swap
    | Refused
    | Holding(mine: Record)                                                      // claimed; `mine` is the cached record
    | StateSwap(mine: Record, seen: Option<Record>, record: Record)              // about to write `record` over what is stored
    | Dropped                                                                    // removed the record

  datatype Step =
    | Tick(elapsed: nat)
    | Begin(cid: Cid, hash: string)
    | Run(cid: Cid)
    | ChangeState(cid: Cid, change: Record)          // the claimant starts to write its cached record with changed fields
    | StreamState(cid: Cid, change: Record)          // a stream's end starts to write these fields and an expiry of its own
    | GiveUp(cid: Cid)                               // the attempts of a state write are used up
    | Clear(cid: Cid)                                // the upstream refused the request: the record is removed

  // When a claim went through, whose it is, and until when it was to last.
  datatype Granted = Granted(holder: Cid, at: nat, expires: nat)

  datatype State = State(clock: nat, stored: Option<Record>, calls: map<Cid, Prog>, granted: seq<Granted>)

  // What a state write stores: its record over what is there.
  function Written(seen: Option<Record>, record: Record): Record {
    Merge(if seen.Some? then seen.value else BLANK, Durable(record))
  }

  // A claimant that removes the record ends its own claim.
  function Ended(granted: seq<Granted>, c: Cid, now: nat): seq<Granted> {
    if granted == [] then []
    else
      var last := granted[|granted| - 1];
      if last.holder == c && now < last.expires then granted[|granted| - 1 := last.(expires := now)] else granted
  }

  function Act(s: State, c: Cid, p: Prog): State {
    match p
    case ClaimRead(mine) =>
      s.(calls := s.calls[c := if s.stored.Some? && Live(s.stored.value, s.clock) then Refused else ClaimSwap(mine, s.stored)])
    case ClaimSwap(mine, seen) =>
      if s.stored == seen && mine.expires.Some? then
        State(s.clock, Some(mine), s.calls[c := Holding(mine)], s.granted + [Granted(c, s.clock, mine.expires.value)])
      else s.(calls := s.calls[c := Refused])
    case StateSwap(mine, seen, record) =>
      if s.stored == seen then s.(stored := Some(Written(seen, record)), calls := s.calls[c := Holding(Written(seen, record))])
      else s.(calls := s.calls[c := StateSwap(mine, s.stored, record)])          // read again and retry
    case _ => s
  }

  predicate Holds(s: State, c: Cid) { c in s.calls && s.calls[c].Holding? }

  function Next(retention: nat, s: State, step: Step): State {
    match step
    case Tick(elapsed) => s.(clock := s.clock + elapsed)
    case Begin(c, hash) =>
      if c in s.calls then s
      else s.(calls := s.calls[c := ClaimRead(Claimed(hash, s.clock + retention))])
    case Run(c) => if c in s.calls then Act(s, c, s.calls[c]) else s
    case ChangeState(c, change) =>
      if Holds(s, c) then
        var mine := s.calls[c].mine;
        s.(calls := s.calls[c := StateSwap(mine, s.stored, Merge(mine, change).(expires := mine.expires))])
      else s
    case StreamState(c, change) =>
      if Holds(s, c) then s.(calls := s.calls[c := StateSwap(s.calls[c].mine, s.stored, change.(expires := Some(s.clock + retention)))])
      else s
    case GiveUp(c) =>
      if c in s.calls && s.calls[c].StateSwap? then s.(calls := s.calls[c := Holding(s.calls[c].mine)]) else s
    case Clear(c) =>
      if Holds(s, c) then State(s.clock, None, s.calls[c := Dropped], Ended(s.granted, c, s.clock)) else s
  }

  function Exec(retention: nat, clock: nat, steps: seq<Step>): State {
    if steps == [] then State(clock, None, map[], [])
    else Next(retention, Exec(retention, clock, steps[..|steps| - 1]), steps[|steps| - 1])
  }

  lemma ExecAppend(retention: nat, clock: nat, steps: seq<Step>, step: Step)
    ensures Exec(retention, clock, steps + [step]) == Next(retention, Exec(retention, clock, steps), step)
  {
    hide Next;
    assert (steps + [step])[..|steps|] == steps;
  }

  // --- a claim never replaces a live record -----------------------------------------------------------------------

  // A call about to swap saw no live record, and time has only passed since.
  ghost predicate SawNoLive(s: State) {
    forall c :: c in s.calls && s.calls[c].ClaimSwap? && s.calls[c].seen.Some? ==> !Live(s.calls[c].seen.value, s.clock)
  }

  lemma SawNoLiveStep(retention: nat, s: State, step: Step)
    requires SawNoLive(s)
    ensures SawNoLive(Next(retention, s, step))
  {
    hide Written, Merge, Ended;
  }

  lemma {:induction false} AlwaysSawNoLive(retention: nat, clock: nat, steps: seq<Step>)
    ensures SawNoLive(Exec(retention, clock, steps))
  {
    if steps != [] {
      hide Next, SawNoLive;
      AlwaysSawNoLive(retention, clock, steps[..|steps| - 1]);
      SawNoLiveStep(retention, Exec(retention, clock, steps[..|steps| - 1]), steps[|steps| - 1]);
    } else {
      assert Exec(retention, clock, steps).calls == map[];
    }
  }

  // In any interleaving, a step that grants a claim finds no unexpired record.
  lemma GrantNeedsNoLiveRecord(retention: nat, clock: nat, steps: seq<Step>, step: Step)
    ensures var s := Exec(retention, clock, steps);
            |Next(retention, s, step).granted| > |s.granted| ==> s.stored.None? || !Live(s.stored.value, s.clock)
  {
    hide Exec, Written, Merge;
    AlwaysSawNoLive(retention, clock, steps);
  }

  // --- what the others are told meanwhile ---------------------------------------------------------------------------

  // From moment `i` on no state write lands and nobody removes the record.
  ghost predicate Unwritten(retention: nat, clock: nat, steps: seq<Step>, i: nat) {
    forall n :: i <= n < |steps| ==> !Writes(Exec(retention, clock, steps[..n]), steps[n])
  }

  ghost predicate Writes(s: State, step: Step) {
    Lands(s, step) || (step.Clear? && Holds(s, step.cid))
  }

  lemma RecordStaysStep(retention: nat, s: State, step: Step, mine: Record)
    requires SawNoLive(s) && mine.expires.Some? && (s.clock < mine.expires.value ==> s.stored == Some(mine)) && !Writes(s, step)
    ensures var s' := Next(retention, s, step); s'.clock < mine.expires.value ==> s'.stored == Some(mine)
  {
    hide Written, Merge, Ended;
  }

  lemma {:induction false} RecordStays(retention: nat, clock: nat, steps: seq<Step>, i: nat, mine: Record)
    requires i <= |steps| && Unwritten(retention, clock, steps, i) && mine.expires.Some?
    requires Exec(retention, clock, steps[..i]).stored == Some(mine)
    ensures Exec(retention, clock, steps).clock < mine.expires.value ==> Exec(retention, clock, steps).stored == Some(mine)
    decreases |steps|
  {
    hide Next, Writes, SawNoLive;
    if i == |steps| {
      assert steps[..i] == steps;
    } else {
      var n := |steps| - 1;
      assert steps[..n][..i] == steps[..i];
      forall k | i <= k < n ensures !Writes(Exec(retention, clock, steps[..n][..k]), steps[..n][k]) { assert steps[..n][..k] == steps[..k]; }
      RecordStays(retention, clock, steps[..n], i, mine);
      AlwaysSawNoLive(retention, clock, steps[..n]);
      RecordStaysStep(retention, Exec(retention, clock, steps[..n]), steps[n], mine);
    }
  }

  // In every run: from the step that grants a claim until its claimant writes or removes the record, everyone who
  // reads the record before the claim expires is told that the request is in progress, or, with another payload, that
  // the key is taken; nobody gets a replay.
  lemma InProgressMeanwhile(retention: nat, clock: nat, steps: seq<Step>, i: nat, hash: string, until: nat, other: string)
    requires i < |steps| && steps[i].Run? && Unwritten(retention, clock, steps, i + 1)
    requires var before := Exec(retention, clock, steps[..i]);
             steps[i].cid in before.calls && before.calls[steps[i].cid].ClaimSwap? && before.calls[steps[i].cid].mine == Claimed(hash, until)
    requires |Exec(retention, clock, steps[..i + 1]).granted| > |Exec(retention, clock, steps[..i]).granted|
    ensures var s := Exec(retention, clock, steps);
            s.clock < until ==>
              && s.stored.Some? && Loaded(s.stored.value).Ok?
              && Gate(Some(Loaded(s.stored.value).value), other, s.clock)
                 == Conflict(if other == hash then "idempotency_request_in_progress" else "idempotency_key_reused_with_different_payload")
  {
    var before := Exec(retention, clock, steps[..i]);
    assert steps[..i + 1][..i] == steps[..i];
    assert Exec(retention, clock, steps[..i + 1]) == Next(retention, before, steps[i]);
    var mine := Claimed(hash, until);
    assert Exec(retention, clock, steps[..i + 1]).stored == Some(mine) by { hide Exec; }
    hide Next, Exec, Unwritten;
    RecordStays(retention, clock, steps, i + 1, mine);
  }

  // --- one claim per retention ----------------------------------------------------------------------------------

  // No claim was granted while an earlier one lasted.
  ghost predicate Exclusive(granted: seq<Granted>) {
    forall i, j :: 0 <= i < j < |granted| ==> granted[i].expires <= granted[j].at
  }

  ghost predicate Orderly(s: State) {
    Exclusive(s.granted) && forall i :: 0 <= i < |s.granted| ==> s.granted[i].at <= s.clock
  }

  // The latest claim still lasts.
  ghost predicate Lasts(s: State) { s.granted != [] && s.clock < s.granted[|s.granted| - 1].expires }

  ghost predicate Covers(stored: Option<Record>, until: nat) {
    stored.Some? && stored.value.expires.Some? && stored.value.expires.value >= until
  }

  // While the latest claim lasts, the stored record lasts at least as long.
  ghost predicate Protected(s: State) { Lasts(s) ==> Covers(s.stored, s.granted[|s.granted| - 1].expires) }

  // A state write that finds the record it read.
  ghost predicate Lands(s: State, step: Step) {
    step.Run? && step.cid in s.calls && s.calls[step.cid].StateSwap? && s.calls[step.cid].seen == s.stored
  }

  // While a claim lasts, a write leaves a record that lasts as long, and only the claimant removes the record.
  ghost predicate Harmless(s: State, step: Step) {
    Lasts(s) ==>
      var last := s.granted[|s.granted| - 1];
      && (Lands(s, step) ==> Covers(Some(Written(s.stored, s.calls[step.cid].record)), last.expires))
      && (step.Clear? && Holds(s, step.cid) ==> last.holder == step.cid)
  }

  ghost predicate AllHarmless(retention: nat, clock: nat, steps: seq<Step>) {
    forall n :: 0 <= n < |steps| ==> Harmless(Exec(retention, clock, steps[..n]), steps[n])
  }

  // One step: the latest claim stays protected if and only if the step is harmless.
  lemma HarmlessExactly(retention: nat, s: State, step: Step)
    requires SawNoLive(s) && Protected(s)
    ensures Protected(Next(retention, s, step)) <==> Harmless(s, step)
  {
    hide Written, Merge;
  }

  lemma OrderlyStep(retention: nat, s: State, step: Step)
    requires SawNoLive(s) && Protected(s) && Orderly(s)
    ensures Orderly(Next(retention, s, step))
  {
    hide Written, Merge;
    var n := |s.granted|;
    if n > 0 { assert forall i :: 0 <= i < n - 1 ==> s.granted[i].expires <= s.granted[n - 1].at; }
  }

  // At most one claim goes through while a claim lasts, in every run of harmless steps.
  lemma {:induction false} ClaimsAreExclusive(retention: nat, clock: nat, steps: seq<Step>)
    requires AllHarmless(retention, clock, steps)
    ensures Orderly(Exec(retention, clock, steps)) && Protected(Exec(retention, clock, steps))
  {
    if steps != [] {
      var n := |steps| - 1;
      forall k | 0 <= k < n ensures Harmless(Exec(retention, clock, steps[..n][..k]), steps[..n][k]) {
        assert steps[..n][..k] == steps[..k];
      }
      ClaimsAreExclusive(retention, clock, steps[..n]);
      AlwaysSawNoLive(retention, clock, steps[..n]);
      hide Next, Orderly, Protected, SawNoLive, Harmless;
      var s := Exec(retention, clock, steps[..n]);
      HarmlessExactly(retention, s, steps[n]);
      OrderlyStep(retention, s, steps[n]);
    }
  }

  // --- and in no other ----------------------------------------------------------------------------------------------

  // A call that waits and then claims without anybody in between.
  function ClaimAfter(wait: nat, c: Cid, hash: string): seq<Step> { [Tick(wait)] + [Begin(c, hash)] + [Run(c)] + [Run(c)] }

  function AfterClaim(retention: nat, s: State, wait: nat, c: Cid, hash: string): State {
    Next(retention, Next(retention, Next(retention, Next(retention, s, Tick(wait)), Begin(c, hash)), Run(c)), Run(c))
  }

  lemma ExecClaimAfter(retention: nat, clock: nat, steps: seq<Step>, wait: nat, c: Cid, hash: string)
    ensures Exec(retention, clock, steps + ClaimAfter(wait, c, hash)) == AfterClaim(retention, Exec(retention, clock, steps), wait, c, hash)
  {
    hide Next, Exec;
    var t := steps + [Tick(wait)] + [Begin(c, hash)];
    ExecAppend(retention, clock, steps, Tick(wait));
    ExecAppend(retention, clock, steps + [Tick(wait)], Begin(c, hash));
    ExecAppend(retention, clock, t, Run(c));
    ExecAppend(retention, clock, t + [Run(c)], Run(c));
    assert steps + ClaimAfter(wait, c, hash) == t + [Run(c)] + [Run(c)];
  }

  lemma ClaimedAfter(retention: nat, s: State, wait: nat, c: Cid, hash: string)
    requires c !in s.calls
    ensures var now, mine := s.clock + wait, Claimed(hash, s.clock + wait + retention);
            var s' := AfterClaim(retention, s, wait, c, hash);
            if s.stored.Some? && Live(s.stored.value, now) then s'.granted == s.granted
            else s' == State(now, Some(mine), s.calls[c := Holding(mine)], s.granted + [Granted(c, now, now + retention)])
  {
    var now, mine := s.clock + wait, Claimed(hash, s.clock + wait + retention);
    var a := Next(retention, Next(retention, s, Tick(wait)), Begin(c, hash));
    assert a == State(now, s.stored, s.calls[c := ClaimRead(mine)], s.granted);
    var b := Next(retention, a, Run(c));
    if s.stored.Some? && Live(s.stored.value, now) {
      assert b.calls[c] == Refused;
    } else {
      assert b == State(now, s.stored, s.calls[c := ClaimSwap(mine, s.stored)], s.granted);
      var d := Next(retention, b, Run(c));
      assert d.calls == s.calls[c := Holding(mine)];
    }
  }

  ghost function Above(ids: set<nat>): (n: nat)
    ensures forall i :: i in ids ==> i < n
  {
    if ids == {} then 0
    else
      var i :| i in ids;
      var rest := Above(ids - {i});
      assert forall j :: j in ids && j != i ==> j in ids - {i};
      if i < rest then rest else i + 1
  }

  // A claim can be granted too early, at once or after some waiting, if and only if the latest one is unprotected.
  lemma EarlyClaimExactly(retention: nat, s: State, hash: string)
    requires Orderly(s)
    ensures Protected(s) <==> forall wait, c :: c !in s.calls ==> Exclusive(AfterClaim(retention, s, wait, c, hash).granted)
  {
    hide Next, AfterClaim;
    var n := |s.granted|;
    if Protected(s) {
      forall wait, c | c !in s.calls ensures Exclusive(AfterClaim(retention, s, wait, c, hash).granted) {
        ClaimedAfter(retention, s, wait, c, hash);
        if n > 0 { assert forall i :: 0 <= i < n - 1 ==> s.granted[i].expires <= s.granted[n - 1].at; }
      }
    } else {
      EarlyClaim(retention, s, hash);
    }
  }

  lemma EarlyClaim(retention: nat, s: State, hash: string)
    requires !Protected(s)
    ensures exists wait, c :: c !in s.calls && !Exclusive(AfterClaim(retention, s, wait, c, hash).granted)
  {
    hide Next, AfterClaim;
    var wait := if s.stored.Some? && Live(s.stored.value, s.clock) then s.stored.value.expires.value - s.clock else 0;
    var c := Above(s.calls.Keys);
    ClaimedAfter(retention, s, wait, c, hash);
    var granted := AfterClaim(retention, s, wait, c, hash).granted;
    assert granted[|s.granted|].at < granted[|s.granted| - 1].expires;
  }

  // A step that is not harmless leaves the latest claim unprotected, whatever came before.
  lemma HarmIsDone(retention: nat, s: State, step: Step)
    requires !Harmless(s, step)
    ensures !Protected(Next(retention, s, step))
  {
    hide Written, Merge;
  }

  // For every run: all its steps are harmless if and only if at none of its moments a new call, after whatever
  // waiting, could be granted a claim while an earlier one lasts.
  lemma ClaimsAreExclusiveExactly(retention: nat, clock: nat, steps: seq<Step>, hash: string)
    ensures AllHarmless(retention, clock, steps)
            <==> forall n, wait, c :: 0 <= n <= |steps| && c !in Exec(retention, clock, steps[..n]).calls ==>
                   Exclusive(Exec(retention, clock, steps[..n] + ClaimAfter(wait, c, hash)).granted)
  {
    hide Next, Harmless, Protected, Exclusive, ClaimAfter, AfterClaim;
    if AllHarmless(retention, clock, steps) {
      forall n, wait, c | 0 <= n <= |steps| && c !in Exec(retention, clock, steps[..n]).calls
        ensures Exclusive(Exec(retention, clock, steps[..n] + ClaimAfter(wait, c, hash)).granted)
      {
        forall k | 0 <= k < n ensures Harmless(Exec(retention, clock, steps[..n][..k]), steps[..n][k]) {
          assert steps[..n][..k] == steps[..k];
        }
        ClaimsAreExclusive(retention, clock, steps[..n]);
        EarlyClaimExactly(retention, Exec(retention, clock, steps[..n]), hash);
        ExecClaimAfter(retention, clock, steps[..n], wait, c, hash);
      }
    } else {
      var n :| 0 <= n < |steps| && !Harmless(Exec(retention, clock, steps[..n]), steps[n]);
      var s := Exec(retention, clock, steps[..n + 1]);
      assert steps[..n + 1] == steps[..n] + [steps[n]];
      ExecAppend(retention, clock, steps[..n], steps[n]);
      HarmIsDone(retention, Exec(retention, clock, steps[..n]), steps[n]);
      EarlyClaim(retention, s, hash);
      var wait, c :| c !in s.calls && !Exclusive(AfterClaim(retention, s, wait, c, hash).granted);
      ExecClaimAfter(retention, clock, steps[..n + 1], wait, c, hash);
    }
  }

  // --- prompt claimants ----------------------------------------------------------------------------------------------

  // A claimant writes and removes only while its own cached record has not expired.
  ghost predicate PromptStep(s: State, step: Step) {
    (Lands(s, step) || (step.Clear? && Holds(s, step.cid))) ==> Live(s.calls[step.cid].mine, s.clock)
  }

  ghost predicate Prompt(retention: nat, clock: nat, steps: seq<Step>) {
    forall n :: 0 <= n < |steps| ==> PromptStep(Exec(retention, clock, steps[..n]), steps[n])
  }

  // A claimant whose cached record has not expired holds the latest claim, and the stored record expires with it.
  ghost predicate MineIsLatest(s: State, c: Cid, mine: Record) {
    Live(mine, s.clock) ==>
      && s.granted != [] && s.granted[|s.granted| - 1].holder == c && s.granted[|s.granted| - 1].expires <= mine.expires.value
      && s.stored.Some? && s.stored.value.expires == mine.expires
  }

  ghost predicate Within(retention: nat, s: State, mine: Record) { mine.expires.Some? && mine.expires.value <= s.clock + retention }

  ghost predicate OwnedCall(retention: nat, s: State, c: Cid, p: Prog) {
    match p
    case ClaimRead(mine) => Within(retention, s, mine)
    case ClaimSwap(mine, _) => Within(retention, s, mine)
    case Holding(mine) => Within(retention, s, mine) && MineIsLatest(s, c, mine)
    case StateSwap(mine, _, record) =>
      && Within(retention, s, mine) && MineIsLatest(s, c, mine)
      && Within(retention, s, record) && mine.expires.value <= record.expires.value
    case _ => true
  }

  ghost predicate Owned(retention: nat, s: State) { forall c :: c in s.calls ==> OwnedCall(retention, s, c, s.calls[c]) }

  lemma WrittenExpires(seen: Option<Record>, record: Record)
    requires record.expires.Some?
    ensures Written(seen, record).expires == record.expires
  {
  }

  lemma PromptStepIsHarmless(retention: nat, s: State, step: Step)
    requires Owned(retention, s) && PromptStep(s, step)
    ensures Harmless(s, step)
  {
    hide Written;
    if Lands(s, step) {
      assert Within(retention, s, s.calls[step.cid].record);
      WrittenExpires(s.stored, s.calls[step.cid].record);
    }
  }

  lemma OwnedStep(retention: nat, s: State, step: Step)
    requires Owned(retention, s) && PromptStep(s, step) && SawNoLive(s)
    ensures Owned(retention, Next(retention, s, step))
  {
    if step.Run? && step.cid in s.calls && s.calls[step.cid].StateSwap? {
      OwnedSwap(retention, s, step);
    } else {
      hide Written, Merge;
      if step.Run? && step.cid in s.calls && s.calls[step.cid].ClaimSwap? { assert Within(retention, s, s.calls[step.cid].mine); }
    }
  }

  lemma OwnedSwap(retention: nat, s: State, step: Step)
    requires Owned(retention, s) && PromptStep(s, step)
    requires step.Run? && step.cid in s.calls && s.calls[step.cid].StateSwap?
    ensures Owned(retention, Next(retention, s, step))
  {
    hide Written;
    var p := s.calls[step.cid];
    WrittenExpires(p.seen, p.record);
  }

  lemma PromptPrefix(retention: nat, clock: nat, steps: seq<Step>)
    requires Prompt(retention, clock, steps) && steps != []
    ensures Prompt(retention, clock, steps[..|steps| - 1])
    ensures PromptStep(Exec(retention, clock, steps[..|steps| - 1]), steps[|steps| - 1])
  {
    hide Exec, PromptStep;
    var n := |steps| - 1;
    forall k | 0 <= k < n ensures PromptStep(Exec(retention, clock, steps[..n][..k]), steps[..n][k]) {
      assert steps[..n][..k] == steps[..k];
    }
  }

  lemma HarmlessGrows(retention: nat, clock: nat, steps: seq<Step>)
    requires steps != [] && AllHarmless(retention, clock, steps[..|steps| - 1])
    requires Harmless(Exec(retention, clock, steps[..|steps| - 1]), steps[|steps| - 1])
    ensures AllHarmless(retention, clock, steps)
  {
    hide Exec, Harmless;
    var n := |steps| - 1;
    forall k | 0 <= k < |steps| ensures Harmless(Exec(retention, clock, steps[..k]), steps[k]) {
      if k < n { assert steps[..n][..k] == steps[..k] && steps[..n][k] == steps[k]; }
    }
  }

  // Claimants that are never late do no harm.
  lemma {:induction false} PromptIsHarmless(retention: nat, clock: nat, steps: seq<Step>)
    requires Prompt(retention, clock, steps)
    ensures AllHarmless(retention, clock, steps) && Owned(retention, Exec(retention, clock, steps))
  {
    if steps != [] {
      hide Next, Owned, SawNoLive, Prompt, PromptStep, AllHarmless, Harmless;
      PromptPrefix(retention, clock, steps);
      var before, step := steps[..|steps| - 1], steps[|steps| - 1];
      PromptIsHarmless(retention, clock, before);
      AlwaysSawNoLive(retention, clock, before);
      var s := Exec(retention, clock, before);
      PromptStepIsHarmless(retention, s, step);
      OwnedStep(retention, s, step);
      HarmlessGrows(retention, clock, steps);
    }
  }

  // --- a late write ------------------------------------------------------------------------------------------------

  const DONE := BLANK.(phase := Some(Settled))

  // Two claims, the second at the moment the first expires.
  function TwoInARow(retention: nat): seq<Step> { ClaimAfter(0, 1, "h") + ClaimAfter(retention, 2, "h") }

  // The first claimant outlives its claim and writes its outcome after a second claim was granted.
  function LateWrite(r: nat): seq<Step> { TwoInARow(r) + [ChangeState(1, DONE)] + [Run(1)] + ClaimAfter(0, 3, "h") }

  lemma FirstClaim(retention: nat, clock: nat, c: Cid, hash: string)
    ensures var mine := Claimed(hash, clock + retention);
            Exec(retention, clock, ClaimAfter(0, c, hash))
            == State(clock, Some(mine), map[c := Holding(mine)], [Granted(c, clock, clock + retention)])
  {
    var s0 := State(clock, None, map[], []);
    assert Exec(retention, clock, []) == s0;
    hide Exec, AfterClaim, Next;
    assert [] + ClaimAfter(0, c, hash) == ClaimAfter(0, c, hash);
    hide ClaimAfter;
    ExecClaimAfter(retention, clock, [], 0, c, hash);
    ClaimedAfter(retention, s0, 0, c, hash);
  }

  lemma TwoClaims(r: nat)
    ensures Exec(r, 0, TwoInARow(r))
            == State(r, Some(Claimed("h", r + r)), map[1 := Holding(Claimed("h", r))][2 := Holding(Claimed("h", r + r))],
                     [Granted(1, 0, r)] + [Granted(2, r, r + r)])
  {
    assert !Live(Claimed("h", r), r);
    hide Exec, ClaimAfter, AfterClaim, Next, Live, Claimed;
    FirstClaim(r, 0, 1, "h");
    var s1 := Exec(r, 0, ClaimAfter(0, 1, "h"));
    ExecClaimAfter(r, 0, ClaimAfter(0, 1, "h"), r, 2, "h");
    ClaimedAfter(r, s1, r, 2, "h");
  }

  lemma LateWritten(r: nat, s: State)
    requires s.stored == Some(Claimed("h", r + r)) && 1 in s.calls && s.calls[1] == Holding(Claimed("h", r))
    ensures var s' := Next(r, Next(r, s, ChangeState(1, DONE)), Run(1));
            && s'.stored.Some? && s'.stored.value.expires == Some(r)
            && s'.clock == s.clock && s'.granted == s.granted && s'.calls.Keys == s.calls.Keys
  {
    var a := Next(r, s, ChangeState(1, DONE));
    assert a.calls[1] == StateSwap(Claimed("h", r), s.stored, Merge(Claimed("h", r), DONE)) && a.stored == s.stored;
  }

  // The merged record carries the first claim's expiry again, so a third claim is granted at the very moment the
  // second one was, while that one still has its whole retention to run.
  lemma LateWriteBreaksExclusion(r: nat)
    ensures Exec(r, 0, LateWrite(r)).granted == [Granted(1, 0, r)] + [Granted(2, r, r + r)] + [Granted(3, r, r + r)]
  {
    TwoClaims(r);
    hide Exec, ClaimAfter, AfterClaim, Next, TwoInARow;
    var t2 := TwoInARow(r);
    LateWritten(r, Exec(r, 0, t2));
    ExecAppend(r, 0, t2, ChangeState(1, DONE));
    ExecAppend(r, 0, t2 + [ChangeState(1, DONE)], Run(1));
    var t3 := t2 + [ChangeState(1, DONE)] + [Run(1)];
    ExecClaimAfter(r, 0, t3, 0, 3, "h");
    ClaimedAfter(r, Exec(r, 0, t3), 0, 3, "h");
    assert LateWrite(r) == t3 + ClaimAfter(0, 3, "h");
  }
}
