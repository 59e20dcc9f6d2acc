/** The Postgres compare-and-swap: rows carry version numbers, an update expects a payload, an absent row or a pair
    of versions, and the list is worked through in a sorted order inside one transaction. */
module VersionedSwap {
  import opened Prelude
  import ProjectionSwap

  datatype Row<V> = Row(payload: V, authoritative: nat, materialized: nat)

  datatype Expect<V> = Payload(value: V) | Absent | Versions(authoritativeSeq: nat, materializedSeq: nat)

  datatype Change<K, V> = Change(key: K, row: Row<V>, needs: Expect<V>)

  datatype SwapError = DuplicateKey

  predicate Meets<V(==)>(row: Option<Row<V>>, e: Expect<V>) {
    match e
    case Payload(v) => row.Some? && row.value.payload == v
    case Absent => row.None?
    case Versions(a, m) => row.Some? && row.value.authoritative == a && row.value.materialized == m
  }

  function Read<K, V>(table: map<K, Row<V>>, k: K): Option<Row<V>> { if k in table then Some(table[k]) else None }

  // --- the atomic step -----------------------------------------------------------------------------------------

  ghost predicate Distinct<K, V>(changes: seq<Change<K, V>>) {
    forall i, j :: 0 <= i < j < |changes| ==> changes[i].key != changes[j].key
  }

  ghost predicate AllMeet<K, V>(table: map<K, Row<V>>, changes: seq<Change<K, V>>) {
    forall c :: c in changes ==> Meets(Read(table, c.key), c.needs)
  }

  // The table afterwards: every listed key holds its new row, every other key is untouched.
  ghost predicate Swapped<K(!new), V>(table: map<K, Row<V>>, after: map<K, Row<V>>, changes: seq<Change<K, V>>) {
    && (forall c :: c in changes ==> Read(after, c.key) == Some(c.row))
    && (forall k :: (forall c :: c in changes ==> c.key != k) ==> Read(after, k) == Read(table, k))
  }

  lemma SwappedOnce<K(!new), V>(table: map<K, Row<V>>, a: map<K, Row<V>>, b: map<K, Row<V>>, changes: seq<Change<K, V>>)
    requires Swapped(table, a, changes) && Swapped(table, b, changes)
    ensures a == b
  {
    forall k ensures Read(a, k) == Read(b, k) {
      if c :| c in changes && c.key == k {}
    }
    assert forall k :: k in a <==> Read(a, k).Some?;
    assert forall k :: k in b <==> Read(b, k).Some?;
    forall k | k in a ensures a[k] == b[k] { assert Read(a, k) == Read(b, k); }
  }

  lemma SameChanges<K, V>(a: seq<Change<K, V>>, b: seq<Change<K, V>>)
    requires multiset(a) == multiset(b)
    ensures forall c :: c in a <==> c in b
  {
    forall c ensures c in a <==> c in b {
      assert c in a <==> c in multiset(a);
      assert c in b <==> c in multiset(b);
    }
  }

  function ApplyAll<K, V>(table: map<K, Row<V>>, changes: seq<Change<K, V>>): map<K, Row<V>> {
    if changes == [] then table
    else ApplyAll(table, changes[..|changes| - 1])[changes[|changes| - 1].key := changes[|changes| - 1].row]
  }

  lemma {:induction false} ApplyAllSwaps<K(!new), V>(table: map<K, Row<V>>, changes: seq<Change<K, V>>)
    requires Distinct(changes)
    ensures Swapped(table, ApplyAll(table, changes), changes)
  {
    if changes != [] {
      var n := |changes| - 1;
      var last := changes[n];
      ApplyAllSwaps(table, changes[..n]);
      assert forall c :: c in changes <==> c in changes[..n] || c == last by {
        assert changes == changes[..n] + [last];
      }
      forall c | c in changes[..n] ensures c.key != last.key {
        var i :| 0 <= i < n && changes[..n][i] == c;
      }
    }
  }

  class Projections<K(==), V(==)> {
    var table: map<K, Row<V>>

    constructor ()
      ensures table == map[]
    {
      table := map[];
    }

    // `sorted` is the update list in the order the rows are locked in. All comparisons come before any write, and
    // a repeated key is an error; the outcome is the same for every order.
    method CompareAndSwap(updates: seq<Change<K, V>>, sorted: seq<Change<K, V>>) returns (r: Result<bool, SwapError>)
      requires multiset(sorted) == multiset(updates)
      modifies this
      ensures r == Err(DuplicateKey) <==> !Distinct(sorted)
      ensures r.Ok? ==> (r.value <==> AllMeet(old(table), updates))
      ensures r == Ok(true) ==> table == ApplyAll(old(table), sorted)
      ensures r != Ok(true) ==> table == old(table)
    {
      SameChanges(updates, sorted);
      if updates == [] {
        assert sorted == [] by { assert |multiset(sorted)| == 0; }
        return Ok(true);
      }
      for i := 0 to |sorted|
        invariant forall j, k :: 0 <= j < k < i ==> sorted[j].key != sorted[k].key
        invariant table == old(table)
      {
        for j := 0 to i
          invariant forall k :: 0 <= k < j ==> sorted[k].key != sorted[i].key
          invariant table == old(table)
        {
          if sorted[j].key == sorted[i].key { return Err(DuplicateKey); }
        }
      }
      for i := 0 to |sorted|
        invariant table == old(table)
        invariant forall j :: 0 <= j < i ==> Meets(Read(table, sorted[j].key), sorted[j].needs)
      {
        var current := Read(table, sorted[i].key);
        if !Meets(current, sorted[i].needs) {
          assert sorted[i] in updates;
          return Ok(false);
        }
      }
      for i := 0 to |sorted|
        invariant table == ApplyAll(old(table), sorted[..i])
      {
        assert sorted[..i + 1][..i] == sorted[..i];
        table := table[sorted[i].key := sorted[i].row];
      }
      assert sorted[..|sorted|] == sorted;
      return Ok(true);
    }
  }

  // Whatever order the rows are locked in, the swap leaves the same table.
  lemma OrderDoesNotMatter<K(!new), V>(table: map<K, Row<V>>, a: seq<Change<K, V>>, b: seq<Change<K, V>>)
    requires multiset(a) == multiset(b) && Distinct(a) && Distinct(b)
    ensures ApplyAll(table, a) == ApplyAll(table, b) && (AllMeet(table, a) <==> AllMeet(table, b))
  {
    SameChanges(a, b);
    ApplyAllSwaps(table, a);
    ApplyAllSwaps(table, b);
    assert Swapped(table, ApplyAll(table, b), a);
    SwappedOnce(table, ApplyAll(table, a), ApplyAll(table, b), a);
  }

  // --- the same swap as on the other store -----------------------------------------------------------------------------

  // A table without its version numbers, and a change as the JSONL store's update.
  function Payloads<K, V>(table: map<K, Row<V>>): map<K, V> { map k | k in table :: table[k].payload }

  function AsUpdate<K, V>(c: Change<K, V>): ProjectionSwap.Update<K, V> {
    ProjectionSwap.Update(c.key, c.row.payload, if c.needs.Payload? then Some(c.needs.value) else None)
  }

  function AsUpdates<K, V>(changes: seq<Change<K, V>>): (updates: seq<ProjectionSwap.Update<K, V>>)
    ensures |updates| == |changes| && forall i :: 0 <= i < |changes| ==> updates[i] == AsUpdate(changes[i])
  {
    seq(|changes|, i requires 0 <= i < |changes| => AsUpdate(changes[i]))
  }

  // As long as no version is expected both stores do the same: they accept the same lists and write the same payloads.
  lemma BothStoresAgree<K(!new), V>(table: map<K, Row<V>>, changes: seq<Change<K, V>>)
    requires forall c :: c in changes ==> !c.needs.Versions?
    ensures AllMeet(table, changes) <==> ProjectionSwap.AllMatch(Payloads(table), AsUpdates(changes))
    ensures Payloads(ApplyAll(table, changes)) == ProjectionSwap.ApplyAll(Payloads(table), AsUpdates(changes))
  {
    forall c | c in changes
      ensures Meets(Read(table, c.key), c.needs) <==> ProjectionSwap.Read(Payloads(table), c.key) == AsUpdate(c).expected
    {
    }
    if AllMeet(table, changes) {
      forall i | 0 <= i < |changes|
        ensures ProjectionSwap.Read(Payloads(table), AsUpdates(changes)[i].key) == AsUpdates(changes)[i].expected
      {
        assert changes[i] in changes;
      }
    }
    if ProjectionSwap.AllMatch(Payloads(table), AsUpdates(changes)) {
      forall c | c in changes ensures Meets(Read(table, c.key), c.needs) {
        var i :| 0 <= i < |changes| && changes[i] == c;
        assert AsUpdates(changes)[i] == AsUpdate(c);
      }
    }
    SamePayloads(table, changes);
  }

  lemma {:induction false} SamePayloads<K, V>(table: map<K, Row<V>>, changes: seq<Change<K, V>>)
    ensures Payloads(ApplyAll(table, changes)) == ProjectionSwap.ApplyAll(Payloads(table), AsUpdates(changes))
  {
    if changes != [] {
      var n := |changes| - 1;
      assert AsUpdates(changes)[..n] == AsUpdates(changes[..n]);
      SamePayloads(table, changes[..n]);
    }
  }

  // --- versions stand for payloads ----------------------------------------------------------------------------------

  // What happens to one row over time. A versioned swap expects the versions that were read and raises both; a
  // creation expects no row; a replacement writes whatever is there and starts the versions at zero; a removal
  // deletes the row, and the next creation starts at zero again.
  datatype Op<V> = Bump(authoritativeSeq: nat, materializedSeq: nat, payload: V) | Create(payload: V) | Replace(payload: V) | Delete

  function Step<V(==)>(row: Option<Row<V>>, op: Op<V>): Option<Row<V>> {
    match op
    case Bump(a, m, payload) => if Meets(row, Versions(a, m)) then Some(Row(payload, a + 1, m + 1)) else row
    case Create(payload) => if Meets(row, Absent) then Some(Row(payload, 0, 0)) else row
    case Replace(payload) => Some(Row(payload, 0, 0))
    case Delete => None
  }

  function Run<V(==)>(ops: seq<Op<V>>): Option<Row<V>> {
    if ops == [] then None else Step(Run(ops[..|ops| - 1]), ops[|ops| - 1])
  }

  lemma RunAppend<V>(ops: seq<Op<V>>, op: Op<V>)
    ensures Run(ops + [op]) == Step(Run(ops), op)
  {
    assert (ops + [op])[..|ops|] == ops;
  }

  // A removal, or a replacement that is not the very row that was read, coming back with its first version.
  predicate Restarts<V(==)>(op: Op<V>, seen: Row<V>) {
    op.Delete? || (op.Replace? && (seen.authoritative > 0 || op.payload != seen.payload))
  }

  ghost predicate NoRestart<V>(ops: seq<Op<V>>, i: nat, seen: Row<V>) {
    forall j :: i <= j < |ops| ==> !Restarts(ops[j], seen)
  }

  lemma {:induction false} VersionsAreEqual<V>(ops: seq<Op<V>>)
    ensures Run(ops).Some? ==> Run(ops).value.authoritative == Run(ops).value.materialized
  {
    if ops != [] { VersionsAreEqual(ops[..|ops| - 1]); }
  }

  // As long as nothing restarts the versions, a row that is no longer the one read has a higher version.
  lemma {:induction false} VersionsRise<V>(ops: seq<Op<V>>, i: nat, seen: Row<V>)
    requires i <= |ops| && Run(ops[..i]) == Some(seen) && NoRestart(ops, i, seen)
    ensures Run(ops).Some? && (Run(ops).value == seen || Run(ops).value.authoritative > seen.authoritative)
    decreases |ops|
  {
    if i < |ops| {
      var n := |ops| - 1;
      assert ops[..n][..i] == ops[..i];
      VersionsRise(ops[..n], i, seen);
      VersionsAreEqual(ops[..i]);
      assert !Restarts(ops[n], seen);
    } else {
      assert ops[..i] == ops;
    }
  }

  // So comparing versions is comparing rows: a swap that expects the versions read at moment `i` goes through at a
  // later moment exactly if the row, payload and all, is the one that was read. What happened before the reading
  // does not matter.
  lemma VersionedSwapIsValueSwap<V>(ops: seq<Op<V>>, i: nat, seen: Row<V>)
    requires i <= |ops| && Run(ops[..i]) == Some(seen) && NoRestart(ops, i, seen)
    ensures Meets(Run(ops), Versions(seen.authoritative, seen.materialized)) <==> Run(ops) == Some(seen)
  {
    VersionsRise(ops, i, seen);
  }

  // --- and when they do not -------------------------------------------------------------------------------------------

  // Swaps and creations only.
  ghost predicate Calls<V>(ops: seq<Op<V>>) { forall op :: op in ops ==> op.Bump? || op.Create? }

  // The versions that were read stand on another payload.
  predicate Confused<V(==)>(row: Option<Row<V>>, seen: Row<V>) {
    Meets(row, Versions(seen.authoritative, seen.materialized)) && row.value.payload != seen.payload
  }

  function Climb<V>(k: nat, payload: V): seq<Op<V>> {
    if k == 0 then [] else Climb(k - 1, payload) + [Bump(k - 1, k - 1, payload)]
  }

  lemma {:induction false} Climbs<V>(ops: seq<Op<V>>, k: nat, payload: V)
    requires Run(ops).Some? && Run(ops).value.authoritative == 0 && Run(ops).value.materialized == 0
    ensures Run(ops + Climb(k, payload)) == Some(Row(if k == 0 then Run(ops).value.payload else payload, k, k))
    ensures Calls(Climb(k, payload))
  {
    if k == 0 {
      assert ops + Climb(0, payload) == ops;
    } else {
      Climbs(ops, k - 1, payload);
      var last := Bump(k - 1, k - 1, payload);
      RunAppend(ops + Climb(k - 1, payload), last);
      assert ops + Climb(k, payload) == ops + Climb(k - 1, payload) + [last];
    }
  }

  // After a restart the versions that were read can come back on another payload by swaps and creations alone.
  lemma RestartConfuses<V>(before: seq<Op<V>>, op: Op<V>, seen: Row<V>, other: V) returns (more: seq<Op<V>>)
    requires Restarts(op, seen) && other != seen.payload && seen.authoritative == seen.materialized
    ensures Calls(more) && Confused(Run(before + [op] + more), seen)
  {
    RunAppend(before, op);
    if op.Delete? {
      RunAppend(before + [op], Create(other));
      Climbs(before + [op] + [Create(other)], seen.authoritative, other);
      more := [Create(other)] + Climb(seen.authoritative, other);
      assert before + [op] + more == before + [op] + [Create(other)] + Climb(seen.authoritative, other);
    } else {
      Climbs(before + [op], seen.authoritative, other);
      more := Climb(seen.authoritative, other);
    }
  }

  // For every run and every row read in it: swaps and creations can bring the versions that were read back on another
  // payload at some moment if and only if something restarted the versions after the reading.
  lemma VersionsConfuseExactly<V>(ops: seq<Op<V>>, i: nat, seen: Row<V>, other: V)
    requires i <= |ops| && Run(ops[..i]) == Some(seen) && other != seen.payload
    ensures !NoRestart(ops, i, seen)
            <==> exists n: nat, more :: i <= n <= |ops| && Calls(more) && Confused(Run(ops[..n] + more), seen)
  {
    if NoRestart(ops, i, seen) {
      forall n: nat, more | i <= n <= |ops| && Calls(more) ensures !Confused(Run(ops[..n] + more), seen) {
        var all := ops[..n] + more;
        forall j | i <= j < |all| ensures !Restarts(all[j], seen) {
          if j < n { assert all[j] == ops[j]; } else { assert all[j] in more; }
        }
        assert all[..i] == ops[..i];
        VersionedSwapIsValueSwap(all, i, seen);
      }
    } else {
      var j :| i <= j < |ops| && Restarts(ops[j], seen);
      VersionsAreEqual(ops[..i]);
      var more := RestartConfuses(ops[..j], ops[j], seen, other);
      assert ops[..j + 1] == ops[..j] + [ops[j]];
    }
  }

  // An idempotency record on this path: a claimant reads its own claim and takes its time; the claim expires, another
  // process takes the record over, is refused by the upstream and removes it, and a third process claims. The late
  // write of the first still meets the versions it read.
  lemma RemovalHidesAChange<V>(first: V, second: V, third: V)
    requires first != third
    ensures var ops := [Create(first)] + [Bump(0, 0, second)] + [Delete] + [Create(third)];
            var read := Run(ops[..1]).value;
            Confused(Run(ops), read) && Restarts(ops[2], read)
  {
    var ops := [Create(first)] + [Bump(0, 0, second)] + [Delete] + [Create(third)];
    var none: seq<Op<V>> := [];
    assert ops[..1] == none + [Create(first)];
    RunAppend(none, Create(first));
    RunAppend([Create(first)], Bump(0, 0, second));
    RunAppend([Create(first)] + [Bump(0, 0, second)], Delete);
    RunAppend([Create(first)] + [Bump(0, 0, second)] + [Delete], Create(third));
    assert none + [Create(first)] == [Create(first)];
  }
}
