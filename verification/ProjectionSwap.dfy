/** Multi-key compare-and-swap on named projections. The stores run it as a loop of comparisons followed by a
    loop of writes; the protocol needs it to be one step that happens entirely or not at all. */
module ProjectionSwap {
  import opened Prelude

  // One element of the update list: replace `key` by `payload` if it still holds `expected` (None: absent).
  datatype Update<K, V> = Update(key: K, payload: V, expected: Option<V>)

  function Read<K, V>(table: map<K, V>, k: K): Option<V> {
    if k in table then Some(table[k]) else None
  }

  // --- the atomic step -----------------------------------------------------------------------------

  ghost predicate Matches<K(!new), V>(table: map<K, V>, expected: map<K, Option<V>>) {
    forall k :: k in expected ==> Read(table, k) == expected[k]
  }

  ghost function Swap<K(!new), V>(table: map<K, V>, expected: map<K, Option<V>>, writes: map<K, V>): map<K, V> {
    if Matches(table, expected) then table + writes else table
  }

  // --- the two loops ---------------------------------------------------------------------------------

  ghost predicate AllMatch<K, V>(table: map<K, V>, updates: seq<Update<K, V>>) {
    forall i :: 0 <= i < |updates| ==> Read(table, updates[i].key) == updates[i].expected
  }

  function ApplyAll<K, V>(table: map<K, V>, updates: seq<Update<K, V>>): map<K, V> {
    if updates == [] then table
    else
      var last := updates[|updates| - 1];
      ApplyAll(table, updates[..|updates| - 1])[last.key := last.payload]
  }

  ghost predicate DistinctKeys<K, V>(updates: seq<Update<K, V>>) {
    forall i, j :: 0 <= i < j < |updates| ==> updates[i].key != updates[j].key
  }

  function WritesOf<K, V>(updates: seq<Update<K, V>>): map<K, V> { ApplyAll(map[], updates) }

  function ExpectedOf<K, V>(updates: seq<Update<K, V>>): map<K, Option<V>> {
    if updates == [] then map[]
    else
      var last := updates[|updates| - 1];
      ExpectedOf(updates[..|updates| - 1])[last.key := last.expected]
  }

  lemma {:induction false} ApplyAllAdds<K, V>(table: map<K, V>, updates: seq<Update<K, V>>)
    ensures ApplyAll(table, updates) == table + WritesOf(updates)
  {
    if updates != [] { ApplyAllAdds(table, updates[..|updates| - 1]); }
  }

  lemma {:induction false} SameKeys<K, V>(updates: seq<Update<K, V>>)
    ensures WritesOf(updates).Keys == ExpectedOf(updates).Keys
    ensures forall k :: k in WritesOf(updates) <==> exists u :: u in updates && u.key == k
  {
    if updates != [] {
      var init, last := updates[..|updates| - 1], updates[|updates| - 1];
      SameKeys(init);
      assert updates == init + [last];
      assert WritesOf(updates).Keys == WritesOf(init).Keys + {last.key};
    }
  }

  // What each key receives: with distinct keys, its own update and nothing else.
  lemma {:induction false} DistinctContents<K, V>(updates: seq<Update<K, V>>, u: Update<K, V>)
    requires DistinctKeys(updates) && u in updates
    ensures u.key in WritesOf(updates) && WritesOf(updates)[u.key] == u.payload
    ensures u.key in ExpectedOf(updates) && ExpectedOf(updates)[u.key] == u.expected
  {
    var n := |updates| - 1;
    var i :| 0 <= i <= n && updates[i] == u;
    if i < n {
      assert updates[..n][i] == u;
      DistinctContents(updates[..n], u);
    }
  }

  // With distinct keys the compare loop and the write loop together are the atomic step.
  lemma TwoLoopsAreOneStep<K(!new), V>(table: map<K, V>, updates: seq<Update<K, V>>)
    requires DistinctKeys(updates)
    ensures AllMatch(table, updates) <==> Matches(table, ExpectedOf(updates))
    ensures (if AllMatch(table, updates) then ApplyAll(table, updates) else table)
            == Swap(table, ExpectedOf(updates), WritesOf(updates))
    ensures WritesOf(updates).Keys == ExpectedOf(updates).Keys
  {
    SameKeys(updates);
    ApplyAllAdds(table, updates);
    if AllMatch(table, updates) {
      forall k | k in ExpectedOf(updates) ensures Read(table, k) == ExpectedOf(updates)[k] {
        assert k in WritesOf(updates);
        var u :| u in updates && u.key == k;
        DistinctContents(updates, u);
        var i :| 0 <= i < |updates| && updates[i] == u;
      }
    }
    if Matches(table, ExpectedOf(updates)) {
      forall i | 0 <= i < |updates| ensures Read(table, updates[i].key) == updates[i].expected {
        DistinctContents(updates, updates[i]);
      }
    }
  }

  // --- the order of the list -------------------------------------------------------------------------

  // Updates of the same key agree on what they write.
  ghost predicate Consistent<K, V>(updates: seq<Update<K, V>>) {
    forall i, j :: 0 <= i < |updates| && 0 <= j < |updates| && updates[i].key == updates[j].key
                   ==> updates[i].payload == updates[j].payload
  }

  lemma {:induction false} ConsistentContents<K, V>(table: map<K, V>, updates: seq<Update<K, V>>)
    requires Consistent(updates)
    ensures forall u :: u in updates ==> u.key in ApplyAll(table, updates) && ApplyAll(table, updates)[u.key] == u.payload
    ensures forall k :: (forall u :: u in updates ==> u.key != k) ==> Read(ApplyAll(table, updates), k) == Read(table, k)
  {
    if updates != [] {
      var n := |updates| - 1;
      var init := updates[..n];
      assert forall u :: u in updates <==> u in init || u == updates[n] by {
        assert updates == init + [updates[n]];
      }
      ConsistentContents(table, init);
    }
  }

  lemma SameElements<K, V>(a: seq<Update<K, V>>, b: seq<Update<K, V>>)
    requires multiset(a) == multiset(b)
    ensures forall u :: u in a <==> u in b
  {
    forall u ensures u in a <==> u in b {
      assert u in a <==> u in multiset(a);
      assert u in b <==> u in multiset(b);
    }
  }

  // Moving one update to the end of the list.
  function MoveLast<K, V>(updates: seq<Update<K, V>>, i: nat): (r: seq<Update<K, V>>)
    requires i < |updates|
    ensures multiset(r) == multiset(updates)
  {
    assert updates == updates[..i] + [updates[i]] + updates[i + 1..];
    updates[..i] + updates[i + 1..] + [updates[i]]
  }

  ghost predicate OrderFree<K(!new), V(!new)>(table: map<K, V>, updates: seq<Update<K, V>>) {
    forall other: seq<Update<K, V>> :: multiset(other) == multiset(updates) ==> ApplyAll(table, other) == ApplyAll(table, updates)
  }

  lemma ConsistentMeansOrderFree<K(!new), V(!new)>(table: map<K, V>, updates: seq<Update<K, V>>, other: seq<Update<K, V>>)
    requires Consistent(updates) && multiset(other) == multiset(updates)
    ensures ApplyAll(table, other) == ApplyAll(table, updates)
    ensures AllMatch(table, other) <==> AllMatch(table, updates)
  {
    SameElements(updates, other);
    forall i, j | 0 <= i < |other| && 0 <= j < |other| && other[i].key == other[j].key
      ensures other[i].payload == other[j].payload
    {
      assert other[i] in updates && other[j] in updates;
    }
    ConsistentContents(table, updates);
    ConsistentContents(table, other);
    var a, b := ApplyAll(table, updates), ApplyAll(table, other);
    forall k ensures Read(a, k) == Read(b, k) {
      if u :| u in updates && u.key == k { assert u in other; }
    }
    assert forall k :: k in a <==> Read(a, k).Some?;
    assert forall k :: k in b <==> Read(b, k).Some?;
    assert a.Keys == b.Keys;
    forall k | k in a ensures a[k] == b[k] { assert Read(a, k) == Read(b, k); }
    if AllMatch(table, updates) {
      forall i | 0 <= i < |other| ensures Read(table, other[i].key) == other[i].expected { assert other[i] in updates; }
    }
    if AllMatch(table, other) {
      forall i | 0 <= i < |updates| ensures Read(table, updates[i].key) == updates[i].expected { assert updates[i] in other; }
    }
  }

  // The result does not depend on the order of the list exactly when repeated keys carry equal payloads.
  lemma OrderFreeExactly<K(!new), V(!new)>(table: map<K, V>, updates: seq<Update<K, V>>)
    ensures OrderFree(table, updates) <==> Consistent(updates)
  {
    if Consistent(updates) {
      forall other: seq<Update<K, V>> | multiset(other) == multiset(updates)
        ensures ApplyAll(table, other) == ApplyAll(table, updates)
      {
        ConsistentMeansOrderFree(table, updates, other);
      }
    } else {
      var i, j :| 0 <= i < |updates| && 0 <= j < |updates| && updates[i].key == updates[j].key
                  && updates[i].payload != updates[j].payload;
      var a, b := MoveLast(updates, i), MoveLast(updates, j);
      assert ApplyAll(table, a)[updates[i].key] == updates[i].payload;
      assert ApplyAll(table, b)[updates[i].key] == updates[j].payload;
    }
  }
}
