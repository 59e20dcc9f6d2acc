/** The ledger after crashes. The settlement swap is the commit; the ledger event is appended afterwards, and a
    retry of a settled request repairs the ledger from the marker. A request can get a second event if and only if
    two calls stand before the append of its event at the same moment; otherwise it has at most one, and a call
    that returns leaves exactly one. */
module CrashRepair {
  import opened Prelude
  import opened Calendar
  import opened Reservations
  import opened ProjectionSwap
  import opened Protocol
  import Settlement

  function Entries(ledger: seq<Entry>, rid: Rid): nat {
    if ledger == [] then 0
    else Entries(ledger[..|ledger| - 1], rid) + if ledger[|ledger| - 1].rid == rid then 1 else 0
  }

  lemma {:induction false} EntriesFound(ledger: seq<Entry>, rid: Rid)
    ensures Entries(ledger, rid) > 0 <==> exists i :: 0 <= i < |ledger| && ledger[i].rid == rid
  {
    if ledger != [] {
      var n := |ledger| - 1;
      EntriesFound(ledger[..n], rid);
      if Entries(ledger[..n], rid) > 0 {
        var i :| 0 <= i < n && ledger[..n][i].rid == rid;
        assert ledger[i].rid == rid;
      }
      if i :| 0 <= i < |ledger| && ledger[i].rid == rid {
        if i < n { assert ledger[..n][i].rid == rid; }
      }
    }
  }

  // A call that is settling the request and has not returned or been lost.
  ghost predicate Settling(p: Prog, rid: Rid) {
    (p.SettleRead? || p.SettleMarker? || p.SettleCounters? || p.SettleLedger? || p.RepairScan? || p.RepairAppend?) && p.s.rid == rid
  }

  // A call whose next action appends the ledger event of the request.
  ghost predicate Pending(p: Prog, rid: Rid) { (p.SettleLedger? || p.RepairAppend?) && p.s.rid == rid }

  ghost predicate OnePending(s: State, rid: Rid) {
    forall c, d :: c in s.calls && d in s.calls && Pending(s.calls[c], rid) && Pending(s.calls[d], rid) ==> c == d
  }

  ghost predicate NeverTwoPending(cfg: Config, clock: Time, steps: seq<Step>, rid: Rid) {
    forall n :: 0 <= n <= |steps| ==> OnePending(Exec(cfg, clock, steps[..n]), rid)
  }

  // What a call that is settling `rid` may rely on about the ledger and the marker.
  ghost predicate CallSound(sh: Shared, p: Prog, rid: Rid) {
    match p
    case SettleLedger(s, _) => s.rid == rid ==> Entries(sh.ledger, rid) == 0 && MarkerSays(sh.store, rid, s.actual)
    case RepairScan(s, _, marker) => s.rid == rid ==> MarkerSays(sh.store, rid, marker.actual)
    case RepairAppend(s, _, marker) => s.rid == rid ==> Entries(sh.ledger, rid) == 0 && MarkerSays(sh.store, rid, marker.actual)
    case SettleDone(r, ok, inLedger) => r == rid && ok && inLedger ==> Entries(sh.ledger, rid) == 1
    case _ => true
  }

  ghost predicate MarkerSays(store: Store, rid: Rid, actual: Charge) {
    Marked(store, rid) && store[MarkerKey(rid)].MarkerValue? && store[MarkerKey(rid)].marker.actual == actual
  }

  // Ledger events of the request carry what its marker says, and there is at most one.
  ghost predicate LedgerSound(sh: Shared, rid: Rid) {
    && Entries(sh.ledger, rid) <= 1
    && (Entries(sh.ledger, rid) > 0 ==> Marked(sh.store, rid))
    && (forall i :: 0 <= i < |sh.ledger| && sh.ledger[i].rid == rid ==> MarkerSays(sh.store, rid, sh.ledger[i].actual))
  }

  ghost predicate Sound(s: State, rid: Rid) {
    LedgerSound(s.sh, rid) && forall c :: c in s.calls ==> CallSound(s.sh, s.calls[c], rid)
  }

  lemma AppendCounts(ledger: seq<Entry>, e: Entry, rid: Rid)
    ensures Entries(ledger + [e], rid) == Entries(ledger, rid) + if e.rid == rid then 1 else 0
  {
    assert (ledger + [e])[..|ledger|] == ledger;
  }

  ghost predicate MarkersKept(store: Store, store': Store) {
    forall rid :: Marked(store, rid) ==> Read(store', MarkerKey(rid)) == Read(store, MarkerKey(rid))
  }

  // No action changes a marker that stands; the settlement swap adds one, for a request that had none.
  lemma ActKeepsMarkers(cfg: Config, sh: Shared, hist: Snapshot, p: Prog, f: bool)
    requires Settlement.Shaped(p)
    ensures MarkersKept(sh.store, Act(cfg, sh, hist, p, f).store)
    ensures Settlement.SettleSwaps(sh, p) ==> !Marked(sh.store, p.s.rid) && MarkerSays(Act(cfg, sh, hist, p, f).store, p.s.rid, p.s.actual)
  {
    hide Act, Matches, SettleExpects, SettleWrites, Bucket, Admit, Checks;
    Settlement.StoreCases(cfg, sh, hist, p, f);
    if Settlement.SettleSwaps(sh, p) {
      Settlement.SettleMarks(sh.store, p.table, p.s, p.observed);
      var store' := Act(cfg, sh, hist, p, f).store;
      forall rid | Marked(sh.store, rid) ensures Read(store', MarkerKey(rid)) == Read(sh.store, MarkerKey(rid)) {
        assert rid != p.s.rid;
      }
    }
  }

  lemma SaysKept(store: Store, store': Store, rid: Rid, actual: Charge)
    requires MarkersKept(store, store') && MarkerSays(store, rid, actual)
    ensures MarkerSays(store', rid, actual)
  {
    assert Read(store', MarkerKey(rid)) == Read(store, MarkerKey(rid));
  }

  lemma LedgerKept(sh: Shared, sh': Shared, rid: Rid)
    requires MarkersKept(sh.store, sh'.store) && sh'.ledger == sh.ledger && LedgerSound(sh, rid)
    ensures LedgerSound(sh', rid)
  {
    hide Entries;
    if Marked(sh.store, rid) { assert Read(sh'.store, MarkerKey(rid)) == Read(sh.store, MarkerKey(rid)); }
    forall i | 0 <= i < |sh.ledger| && sh.ledger[i].rid == rid ensures MarkerSays(sh'.store, rid, sh.ledger[i].actual) {
      SaysKept(sh.store, sh'.store, rid, sh.ledger[i].actual);
    }
  }

  lemma CallKept(sh: Shared, sh': Shared, p: Prog, rid: Rid)
    requires MarkersKept(sh.store, sh'.store) && Entries(sh'.ledger, rid) == Entries(sh.ledger, rid) && CallSound(sh, p, rid)
    ensures CallSound(sh', p, rid)
  {
    hide Entries;
    match p
    case SettleLedger(s, _) => if s.rid == rid { SaysKept(sh.store, sh'.store, rid, s.actual); }
    case RepairScan(s, _, marker) => if s.rid == rid { SaysKept(sh.store, sh'.store, rid, marker.actual); }
    case RepairAppend(s, _, marker) => if s.rid == rid { SaysKept(sh.store, sh'.store, rid, marker.actual); }
    case _ =>
  }

  lemma LedgerAppended(sh: Shared, e: Entry, rid: Rid)
    requires LedgerSound(sh, rid) && (e.rid == rid ==> Entries(sh.ledger, rid) == 0 && MarkerSays(sh.store, rid, e.actual))
    ensures LedgerSound(sh.(ledger := sh.ledger + [e]), rid)
    ensures Entries(sh.ledger + [e], rid) == Entries(sh.ledger, rid) + if e.rid == rid then 1 else 0
  {
    AppendCounts(sh.ledger, e, rid);
    hide Entries;
    forall i | 0 <= i < |sh.ledger + [e]| && (sh.ledger + [e])[i].rid == rid
      ensures MarkerSays(sh.store, rid, (sh.ledger + [e])[i].actual)
    {
      if i < |sh.ledger| { assert sh.ledger[i].rid == rid; }
    }
  }

  lemma ActSettleSound(cfg: Config, sh: Shared, p: Prog, f: bool, rid: Rid)
    requires p.SettleRead? || p.SettleMarker? || p.SettleCounters? || p.SettleLedger? || p.RepairScan? || p.RepairAppend?
    requires LedgerSound(sh, rid) && CallSound(sh, p, rid)
    requires var o := ActSettle(cfg, sh, p, f);
             && MarkersKept(sh.store, o.store)
             && (Settlement.SettleSwaps(sh, p) ==> !Marked(sh.store, p.s.rid) && MarkerSays(o.store, p.s.rid, p.s.actual))
    ensures var o := ActSettle(cfg, sh, p, f);
            var sh' := Shared(sh.clock, o.store, o.ledger);
            CallSound(sh', o.prog, rid) && LedgerSound(sh', rid)
  {
    hide LanesToDebit, RowsOf, Matches, SettleExpects, SettleWrites, Bucket, Entries;
    EntriesFound(sh.ledger, rid);
    if p.SettleLedger? && !f {
      LedgerAppended(sh, Entry(LedgerSubject(p.s), p.s.rid, p.s.actual), rid);
    } else if p.RepairAppend? && !f {
      LedgerAppended(sh, Entry(LedgerSubject(p.s), p.s.rid, p.marker.actual), rid);
    } else {
      var o := ActSettle(cfg, sh, p, f);
      LedgerKept(sh, Shared(sh.clock, o.store, o.ledger), rid);
    }
  }

  // The acting call: it stays sound, and the ledger stays sound.
  lemma ActSound(cfg: Config, sh: Shared, hist: Snapshot, p: Prog, f: bool, rid: Rid)
    requires Settlement.Shaped(p) && LedgerSound(sh, rid) && CallSound(sh, p, rid)
    ensures var o := Act(cfg, sh, hist, p, f);
            var sh' := Shared(sh.clock, o.store, o.ledger);
            CallSound(sh', o.prog, rid) && LedgerSound(sh', rid)
  {
    hide Fits, Checks, Admit, EditRows, Prune, RowsOf, Entries, ActSettle, LedgerSound, Matches, SettleExpects;
    var o := Act(cfg, sh, hist, p, f);
    ActKeepsMarkers(cfg, sh, hist, p, f);
    if p.SettleRead? || p.SettleMarker? || p.SettleCounters? || p.SettleLedger? || p.RepairScan? || p.RepairAppend? {
      ActSettleSound(cfg, sh, p, f, rid);
    } else {
      LedgerKept(sh, Shared(sh.clock, o.store, o.ledger), rid);
    }
  }

  // Only a call at one of the two append points for this request adds to its events.
  lemma WhoAppends(cfg: Config, sh: Shared, hist: Snapshot, p: Prog, f: bool, rid: Rid)
    ensures Entries(Act(cfg, sh, hist, p, f).ledger, rid) != Entries(sh.ledger, rid) ==> (p.SettleLedger? || p.RepairAppend?) && p.s.rid == rid
  {
    hide Fits, Checks, LanesToDebit, Admit, EditRows, Prune, RowsOf, Matches, SettleExpects, SettleWrites, Bucket, Entries;
    if p.SettleLedger? { AppendCounts(sh.ledger, Entry(LedgerSubject(p.s), p.s.rid, p.s.actual), rid); }
    if p.RepairAppend? { AppendCounts(sh.ledger, Entry(LedgerSubject(p.s), p.s.rid, p.marker.actual), rid); }
  }

  lemma SoundStep(cfg: Config, s: State, step: Step, rid: Rid)
    requires Settlement.WellFormed(s) && Sound(s, rid) && OnePending(s, rid)
    ensures Sound(Next(cfg, s, step), rid)
  {
    hide Entries, LedgerSound, Rise, Typed;
    var s' := Next(cfg, s, step);
    if step.Run? && step.cid in s.calls {
      var p := s.calls[step.cid];
      ActSound(cfg, s.sh, History(s), p, step.appendFails, rid);
      ActKeepsMarkers(cfg, s.sh, History(s), p, step.appendFails);
      WhoAppends(cfg, s.sh, History(s), p, step.appendFails, rid);
      hide Act;
      forall d | d in s'.calls ensures CallSound(s'.sh, s'.calls[d], rid) {
        if d != step.cid {
          if Entries(s'.sh.ledger, rid) == Entries(s.sh.ledger, rid) {
            CallKept(s.sh, s'.sh, s.calls[d], rid);
          } else {
            assert Pending(p, rid) && !Pending(s.calls[d], rid);
            if s.calls[d].RepairScan? && s.calls[d].s.rid == rid {
              SaysKept(s.sh.store, s'.sh.store, rid, s.calls[d].marker.actual);
            }
          }
        }
      }
    } else {
      LedgerKept(s.sh, s'.sh, rid);
      forall d | d in s.calls ensures CallSound(s'.sh, s.calls[d], rid) { CallKept(s.sh, s'.sh, s.calls[d], rid); }
    }
  }

  // Over every run in which no two calls stand before the append of the request's event at the same moment, with
  // crashes anywhere: the ledger never holds two events of the request, an event always says what the marker says,
  // and a call that has returned True with the event in the ledger leaves exactly one there.
  lemma {:induction false} LedgerRepaired(cfg: Config, clock: Time, steps: seq<Step>, rid: Rid)
    requires NeverTwoPending(cfg, clock, steps, rid)
    ensures Sound(Exec(cfg, clock, steps), rid)
  {
    if steps != [] {
      var n := |steps| - 1;
      forall k | 0 <= k <= n ensures OnePending(Exec(cfg, clock, steps[..n][..k]), rid) {
        assert steps[..n][..k] == steps[..k];
      }
      LedgerRepaired(cfg, clock, steps[..n], rid);
      Settlement.CountersRebuildable(cfg, clock, steps[..n]);
      hide Next, Settlement.WellFormed, Settlement.CountersAreReplay, Sound, OnePending;
      SoundStep(cfg, Exec(cfg, clock, steps[..n]), steps[n], rid);
    }
  }

  // --- when a second event can come ------------------------------------------------------------------------------

  // The run after one more action of `c` and then one of `d`.
  ghost function Ahead(cfg: Config, clock: Time, steps: seq<Step>, c: Cid, d: Cid): State {
    Exec(cfg, clock, steps + [Run(c, false)] + [Run(d, false)])
  }

  lemma AheadIs(cfg: Config, clock: Time, steps: seq<Step>, c: Cid, d: Cid)
    ensures Ahead(cfg, clock, steps, c, d) == Next(cfg, Next(cfg, Exec(cfg, clock, steps), Run(c, false)), Run(d, false))
  {
    hide Next, Exec;
    ExecAppend(cfg, clock, steps, Run(c, false));
    ExecAppend(cfg, clock, steps + [Run(c, false)], Run(d, false));
  }

  lemma PendingBooks(cfg: Config, s: State, c: Cid, rid: Rid)
    requires c in s.calls && Pending(s.calls[c], rid)
    ensures Entries(Next(cfg, s, Run(c, false)).sh.ledger, rid) == Entries(s.sh.ledger, rid) + 1
    ensures forall d :: d in s.calls && d != c ==> d in Next(cfg, s, Run(c, false)).calls && Next(cfg, s, Run(c, false)).calls[d] == s.calls[d]
  {
    hide ActReserve, ActEdit, Entries, Rise, LedgerSubject;
    var p := s.calls[c];
    AppendCounts(s.sh.ledger, Entry(LedgerSubject(p.s), rid, if p.SettleLedger? then p.s.actual else p.marker.actual), rid);
  }

  lemma NotPendingBooksNothing(cfg: Config, s: State, c: Cid, rid: Rid)
    requires c in s.calls ==> !Pending(s.calls[c], rid)
    ensures Entries(Next(cfg, s, Run(c, false)).sh.ledger, rid) == Entries(s.sh.ledger, rid)
  {
    hide Act, Entries, Rise;
    if c in s.calls { WhoAppends(cfg, s.sh, History(s), s.calls[c], false, rid); }
  }

  // In a sound state without two such calls no two further actions leave a second event.
  lemma TwoActionsBookOnce(cfg: Config, s: State, c: Cid, d: Cid, rid: Rid)
    requires Settlement.WellFormed(s) && Sound(s, rid) && OnePending(s, rid)
    ensures Entries(Next(cfg, Next(cfg, s, Run(c, false)), Run(d, false)).sh.ledger, rid) <= 1
  {
    hide Next, Act, Entries, Settlement.WellFormed;
    var s' := Next(cfg, s, Run(c, false));
    SoundStep(cfg, s, Run(c, false), rid);
    if d in s'.calls && Pending(s'.calls[d], rid) {
      PendingBooks(cfg, s', d, rid);
      assert CallSound(s'.sh, s'.calls[d], rid);
    } else {
      NotPendingBooksNothing(cfg, s', d, rid);
    }
  }

  // Two calls that both stand before the append: letting both go on leaves two events.
  lemma TwoPendingBookTwice(cfg: Config, s: State, c: Cid, d: Cid, rid: Rid)
    requires c in s.calls && d in s.calls && c != d && Pending(s.calls[c], rid) && Pending(s.calls[d], rid)
    ensures Entries(Next(cfg, Next(cfg, s, Run(c, false)), Run(d, false)).sh.ledger, rid) >= 2
  {
    hide Next, Entries;
    PendingBooks(cfg, s, c, rid);
    PendingBooks(cfg, Next(cfg, s, Run(c, false)), d, rid);
  }

  // For every run: no two calls ever stand before the append of the request's event together if and only if at no
  // moment of the run two more actions could leave the request with two events.
  lemma SecondEventExactly(cfg: Config, clock: Time, steps: seq<Step>, rid: Rid)
    ensures NeverTwoPending(cfg, clock, steps, rid)
            <==> forall n, c, d :: 0 <= n <= |steps| ==> Entries(Ahead(cfg, clock, steps[..n], c, d).sh.ledger, rid) <= 1
  {
    hide Next, Entries, Sound, Settlement.WellFormed, Settlement.CountersAreReplay, Ahead;
    if NeverTwoPending(cfg, clock, steps, rid) {
      forall n, c, d | 0 <= n <= |steps| ensures Entries(Ahead(cfg, clock, steps[..n], c, d).sh.ledger, rid) <= 1 {
        forall k | 0 <= k <= n ensures OnePending(Exec(cfg, clock, steps[..n][..k]), rid) {
          assert steps[..n][..k] == steps[..k];
        }
        LedgerRepaired(cfg, clock, steps[..n], rid);
        Settlement.CountersRebuildable(cfg, clock, steps[..n]);
        assert steps[..n][..n] == steps[..n];
        AheadIs(cfg, clock, steps[..n], c, d);
        TwoActionsBookOnce(cfg, Exec(cfg, clock, steps[..n]), c, d, rid);
      }
    } else {
      var n :| 0 <= n <= |steps| && !OnePending(Exec(cfg, clock, steps[..n]), rid);
      var s := Exec(cfg, clock, steps[..n]);
      var c, d :| c in s.calls && d in s.calls && Pending(s.calls[c], rid) && Pending(s.calls[d], rid) && c != d;
      AheadIs(cfg, clock, steps[..n], c, d);
      TwoPendingBookTwice(cfg, s, c, d, rid);
    }
  }

  // Settle calls of the request that never overlap at all.
  ghost predicate NeverOverlapping(cfg: Config, clock: Time, steps: seq<Step>, rid: Rid) {
    forall n :: 0 <= n <= |steps| ==> OneAtATime(Exec(cfg, clock, steps[..n]), rid)
  }

  ghost predicate OneAtATime(s: State, rid: Rid) {
    forall c, d :: c in s.calls && d in s.calls && Settling(s.calls[c], rid) && Settling(s.calls[d], rid) ==> c == d
  }

  // They are a special case: at no moment of the run does the request have a second event.
  lemma NoOverlapIsEnough(cfg: Config, clock: Time, steps: seq<Step>, rid: Rid)
    requires NeverOverlapping(cfg, clock, steps, rid)
    ensures forall i :: 0 <= i <= |steps| ==> Entries(Exec(cfg, clock, steps[..i]).sh.ledger, rid) <= 1
  {
    hide Exec, Next, Entries;
    forall i | 0 <= i <= |steps| ensures Entries(Exec(cfg, clock, steps[..i]).sh.ledger, rid) <= 1 {
      forall k | 0 <= k <= i ensures OnePending(Exec(cfg, clock, steps[..i][..k]), rid) {
        assert steps[..i][..k] == steps[..k];
        assert OneAtATime(Exec(cfg, clock, steps[..k]), rid);
      }
      LedgerRepaired(cfg, clock, steps[..i], rid);
    }
  }

  // --- the answer True ---------------------------------------------------------------------------------------

  // No append raised, and the settle calls of the request name someone to book the usage to.
  ghost predicate Bookable(steps: seq<Step>, rid: Rid) {
    forall i :: 0 <= i < |steps| ==>
      && (steps[i].Run? ==> !steps[i].appendFails)
      && (steps[i].Begin? && steps[i].op.SettleOp? && steps[i].op.rid == rid ==>
            steps[i].op.caller.user != "" || steps[i].op.caller.principal != "")
  }

  ghost predicate Booked(p: Prog, rid: Rid) {
    && (Settling(p, rid) && p.confirm == None ==> LedgerSubject(p.s) != "")
    && (p.SettleDone? && p.rid == rid && p.ok ==> p.inLedger)
  }

  lemma ActSettleBooked(cfg: Config, sh: Shared, p: Prog, rid: Rid)
    requires p.SettleRead? || p.SettleMarker? || p.SettleCounters? || p.SettleLedger? || p.RepairScan? || p.RepairAppend?
    requires Booked(p, rid)
    ensures Booked(ActSettle(cfg, sh, p, false).prog, rid)
  {
    hide LanesToDebit, RowsOf, Matches, SettleExpects, SettleWrites, Bucket, LedgerSubject;
  }

  lemma ActBooked(cfg: Config, sh: Shared, hist: Snapshot, p: Prog, rid: Rid)
    requires Booked(p, rid)
    ensures Booked(Act(cfg, sh, hist, p, false).prog, rid)
  {
    hide Fits, Checks, Admit, EditRows, Prune, RowsOf, ActSettle, LedgerSubject;
    if p.SettleRead? || p.SettleMarker? || p.SettleCounters? || p.SettleLedger? || p.RepairScan? || p.RepairAppend? {
      ActSettleBooked(cfg, sh, p, rid);
    }
  }

  ghost predicate AllBooked(s: State, rid: Rid) { forall c :: c in s.calls ==> Booked(s.calls[c], rid) }

  lemma BookedStep(cfg: Config, s: State, step: Step, rid: Rid)
    requires AllBooked(s, rid) && Bookable([step], rid)
    ensures AllBooked(Next(cfg, s, step), rid)
  {
    hide Rise;
    assert [step][0] == step;
    if step.Run? && step.cid in s.calls {
      hide Act, Booked;
      ActBooked(cfg, s.sh, History(s), s.calls[step.cid], rid);
    }
  }

  lemma {:induction false} AlwaysBooked(cfg: Config, clock: Time, steps: seq<Step>, rid: Rid)
    requires Bookable(steps, rid)
    ensures AllBooked(Exec(cfg, clock, steps), rid)
  {
    if steps != [] {
      var n := |steps| - 1;
      assert forall i :: 0 <= i < n ==> steps[..n][i] == steps[i];
      AlwaysBooked(cfg, clock, steps[..n], rid);
      hide Next, AllBooked;
      BookedStep(cfg, Exec(cfg, clock, steps[..n]), steps[n], rid);
    }
  }

  // Without two pending appends and without failing ones, every settlement that answers True leaves exactly one ledger event of
  // its request, with the marker's amounts, no matter which calls crashed before it.
  lemma TrueMeansOneEvent(cfg: Config, clock: Time, steps: seq<Step>, c: Cid, rid: Rid)
    requires NeverTwoPending(cfg, clock, steps, rid) && Bookable(steps, rid)
    requires c in Exec(cfg, clock, steps).calls && Exec(cfg, clock, steps).calls[c].SettleDone?
    requires Exec(cfg, clock, steps).calls[c].rid == rid && Exec(cfg, clock, steps).calls[c].ok
    ensures var sh := Exec(cfg, clock, steps).sh;
            && Entries(sh.ledger, rid) == 1
            && (forall i :: 0 <= i < |sh.ledger| && sh.ledger[i].rid == rid ==> MarkerSays(sh.store, rid, sh.ledger[i].actual))
  {
    LedgerRepaired(cfg, clock, steps, rid);
    AlwaysBooked(cfg, clock, steps, rid);
  }
}
