/** The active history window: the newest retained records, taken greedily under a record cap and a byte cap. */
module HistoryWindow {
  import opened TextOrder

  datatype Row = Row(ts: string, at: nat, request: string, totalBytes: int)

  datatype Window = Window(requestIds: seq<string>, totalBytes: nat)

  function Size(r: Row): nat { if r.totalBytes < 0 then 0 else r.totalBytes }

  // --- newest first ------------------------------------------------------------------------------------------

  predicate Newer(a: Row, b: Row) { Less(b.ts, a.ts) || (b.ts == a.ts && Less(b.request, a.request)) }

  lemma NewerIsOrder(a: Row, b: Row, c: Row)
    ensures Newer(a, b) && Newer(b, c) ==> Newer(a, c)
    ensures !(Newer(a, b) && Newer(b, a))
    ensures !Newer(b, a) && !Newer(c, b) ==> !Newer(c, a)
  {
    forall x: string, y: string, z: string | Less(x, y) && Less(y, z) ensures Less(x, z) { LessTransitive(x, y, z); }
    forall x: string ensures !Less(x, x) { LessIrreflexive(x); }
    forall x: string, y: string ensures Less(x, y) || x == y || Less(y, x) { LessTotal(x, y); }
    hide Less;
  }

  ghost predicate Sorted(rows: seq<Row>) { forall i, j :: 0 <= i < j < |rows| ==> !Newer(rows[j], rows[i]) }

  function Insert(rows: seq<Row>, r: Row): seq<Row> {
    if rows == [] then [r]
    else if Newer(r, rows[0]) then [r] + rows
    else [rows[0]] + Insert(rows[1..], r)
  }

  lemma {:induction false} InsertSorts(rows: seq<Row>, r: Row)
    requires Sorted(rows)
    ensures Sorted(Insert(rows, r)) && multiset(Insert(rows, r)) == multiset(rows) + multiset{r}
  {
    hide Newer;
    if rows == [] {
    } else if Newer(r, rows[0]) {
      forall j | 0 <= j < |rows| ensures !Newer(rows[j], r) { NewerIsOrder(r, rows[0], rows[j]); }
    } else {
      assert rows == [rows[0]] + rows[1..];
      InsertSorts(rows[1..], r);
      var rest := Insert(rows[1..], r);
      forall j | 0 <= j < |rest| ensures !Newer(rest[j], rows[0]) {
        assert rest[j] in multiset(rest);
        if rest[j] != r {
          assert rest[j] in multiset(rows[1..]);
          var k :| 0 <= k < |rows[1..]| && rows[1..][k] == rest[j];
          assert rows[k + 1] == rest[j];
        }
      }
    }
  }

  // `filtered.sort(key=..., reverse=True)`
  function NewestFirst(rows: seq<Row>): seq<Row> {
    if rows == [] then [] else Insert(NewestFirst(rows[..|rows| - 1]), rows[|rows| - 1])
  }

  lemma {:induction false} NewestFirstSorts(rows: seq<Row>)
    ensures Sorted(NewestFirst(rows)) && multiset(NewestFirst(rows)) == multiset(rows)
  {
    if rows != [] {
      NewestFirstSorts(rows[..|rows| - 1]);
      InsertSorts(NewestFirst(rows[..|rows| - 1]), rows[|rows| - 1]);
      assert rows == rows[..|rows| - 1] + [rows[|rows| - 1]];
    }
  }

  // Newest first: by time stamp, and at one time stamp by request id, both in Python's order of texts.
  lemma NewestComeFirst(rows: seq<Row>, i: nat, j: nat)
    requires i < j < |rows|
    ensures var sorted := NewestFirst(rows);
            && |sorted| == |rows| && !Less(sorted[i].ts, sorted[j].ts)
            && (sorted[i].ts == sorted[j].ts ==> !Less(sorted[i].request, sorted[j].request))
  {
    NewestFirstSorts(rows);
    var sorted := NewestFirst(rows);
    assert |multiset(sorted)| == |multiset(rows)|;
    assert !Newer(sorted[j], sorted[i]);
    LessTotal(sorted[i].ts, sorted[j].ts);
  }

  // Exactly the rows at or after the cutoff are considered.
  lemma {:induction false} RetainedExactly(rows: seq<Row>, cutoff: nat, r: Row)
    ensures multiset(Retained(rows, cutoff))[r] == if r.at >= cutoff then multiset(rows)[r] else 0
  {
    if rows != [] {
      RetainedExactly(rows[..|rows| - 1], cutoff, r);
      assert rows == rows[..|rows| - 1] + [rows[|rows| - 1]];
    }
  }

  function Retained(rows: seq<Row>, cutoff: nat): seq<Row> {
    if rows == [] then []
    else Retained(rows[..|rows| - 1], cutoff) + if rows[|rows| - 1].at >= cutoff then [rows[|rows| - 1]] else []
  }

  // --- the window --------------------------------------------------------------------------------------------

  function BytesOf(rows: seq<Row>, picked: seq<nat>): nat
    requires forall i :: 0 <= i < |picked| ==> picked[i] < |rows|
  {
    if picked == [] then 0 else BytesOf(rows, picked[..|picked| - 1]) + Size(rows[picked[|picked| - 1]])
  }

  // `picked` are positions among the newest-first rows; the window names these rows and adds up their sizes.
  ghost predicate Names(rows: seq<Row>, picked: seq<nat>, window: Window) {
    && (forall i :: 0 <= i < |picked| ==> picked[i] < |rows| && rows[picked[i]].request != "")
    && (forall i, j :: 0 <= i < j < |picked| ==> picked[i] < picked[j])
    && |window.requestIds| == |picked| && (forall i :: 0 <= i < |picked| ==> window.requestIds[i] == rows[picked[i]].request)
    && window.totalBytes == BytesOf(rows, picked)
  }

  // The bytes of a window are those of its rows, a negative size counting as none.
  lemma {:induction false} BytesAdd(rows: seq<Row>, p: seq<nat>, i: nat)
    requires i < |rows| && forall k :: 0 <= k < |p| ==> p[k] < |rows|
    ensures BytesOf(rows, p + [i]) == BytesOf(rows, p) + if rows[i].totalBytes > 0 then rows[i].totalBytes else 0
    ensures BytesOf(rows, []) == 0
  {
    assert (p + [i])[..|p|] == p;
  }

  // The first `k` picked rows come before position `j` and leave no room for it.
  ghost predicate NoRoomAfter(rows: seq<Row>, picked: seq<nat>, k: nat, j: nat, maxRecords: int, maxBytes: int)
    requires j < |rows| && forall i :: 0 <= i < |picked| ==> picked[i] < |rows|
  {
    && k <= |picked| && (forall i :: 0 <= i < k ==> picked[i] < j)
    && (k >= maxRecords || BytesOf(rows, picked[..k]) + Size(rows[j]) > maxBytes)
  }

  ghost predicate CrowdedOut(rows: seq<Row>, picked: seq<nat>, j: nat, maxRecords: int, maxBytes: int)
    requires j < |rows| && forall i :: 0 <= i < |picked| ==> picked[i] < |rows|
  {
    exists k: nat :: NoRoomAfter(rows, picked, k, j, maxRecords, maxBytes)
  }

  lemma FullStays(rows: seq<Row>, picked: seq<nat>, i: nat, maxRecords: int, maxBytes: int)
    requires |picked| >= maxRecords && forall k :: 0 <= k < |picked| ==> picked[k] < i && picked[k] < |rows|
    ensures forall j :: i <= j < |rows| ==> CrowdedOut(rows, picked, j, maxRecords, maxBytes)
  {
    forall j | i <= j < |rows| ensures CrowdedOut(rows, picked, j, maxRecords, maxBytes) {
      assert NoRoomAfter(rows, picked, |picked|, j, maxRecords, maxBytes);
    }
  }

  lemma TooBig(rows: seq<Row>, picked: seq<nat>, j: nat, maxRecords: int, maxBytes: int)
    requires j < |rows| && forall k :: 0 <= k < |picked| ==> picked[k] < j
    requires BytesOf(rows, picked) + Size(rows[j]) > maxBytes
    ensures CrowdedOut(rows, picked, j, maxRecords, maxBytes)
  {
    assert picked[..|picked|] == picked;
    assert NoRoomAfter(rows, picked, |picked|, j, maxRecords, maxBytes);
  }

  lemma EmptyNames(rows: seq<Row>)
    ensures Names(rows, [], Window([], 0)) && BytesOf(rows, []) == 0
  {
  }

  lemma PickedOne(rows: seq<Row>, picked: seq<nat>, window: Window, i: nat)
    requires Names(rows, picked, window) && i < |rows| && rows[i].request != "" && forall k :: 0 <= k < |picked| ==> picked[k] < i
    ensures BytesOf(rows, picked + [i]) == BytesOf(rows, picked) + Size(rows[i])
    ensures Names(rows, picked + [i], Window(window.requestIds + [rows[i].request], window.totalBytes + Size(rows[i])))
  {
    assert (picked + [i])[..|picked|] == picked;
  }

  // A window within both caps, in newest-first order, from which only rows without an id and rows crowded out by
  // newer ones are missing.
  ghost predicate Greedy(rows: seq<Row>, picked: seq<nat>, window: Window, maxRecords: int, maxBytes: int) {
    && Names(rows, picked, window)
    && (picked == [] || (|picked| <= maxRecords && window.totalBytes <= maxBytes))
    && (forall j :: 0 <= j < |rows| && j !in picked && rows[j].request != "" ==> CrowdedOut(rows, picked, j, maxRecords, maxBytes))
  }

  method RefreshActiveWindow(history: seq<Row>, cutoff: nat, maxRecords: int, maxBytes: int) returns (window: Window)
    ensures exists picked: seq<nat> :: Greedy(NewestFirst(Retained(history, cutoff)), picked, window, maxRecords, maxBytes)
  {
    var rows := NewestFirst(Retained(history, cutoff));
    hide NewestFirst, Retained, CrowdedOut, Size;
    EmptyNames(rows);
    hide Names, BytesOf;
    var active: seq<string> := [];
    var used: nat := 0;
    ghost var picked: seq<nat> := [];
    for i := 0 to |rows|
      invariant Names(rows, picked, Window(active, used))
      invariant forall k :: 0 <= k < |picked| ==> picked[k] < i
      invariant |active| == |picked| && used == BytesOf(rows, picked)
      invariant active == [] || (|active| <= maxRecords && used <= maxBytes)
      invariant forall j :: 0 <= j < i && j !in picked && rows[j].request != "" ==> CrowdedOut(rows, picked, j, maxRecords, maxBytes)
    {
      if |active| >= maxRecords {
        FullStays(rows, picked, i, maxRecords, maxBytes);
        break;
      }
      if rows[i].request == "" { continue; }
      if used + Size(rows[i]) > maxBytes {
        TooBig(rows, picked, i, maxRecords, maxBytes);
        continue;
      }
      CrowdedStays(rows, picked, i, maxRecords, maxBytes);
      PickedOne(rows, picked, Window(active, used), i);
      picked := picked + [i];
      active := active + [rows[i].request];
      used := used + Size(rows[i]);
    }
    window := Window(active, used);
    assert Greedy(rows, picked, window, maxRecords, maxBytes);
  }

  lemma CrowdedStays(rows: seq<Row>, picked: seq<nat>, i: nat, maxRecords: int, maxBytes: int)
    requires i < |rows| && forall k :: 0 <= k < |picked| ==> picked[k] < i
    ensures forall j :: 0 <= j < i && CrowdedOut(rows, picked, j, maxRecords, maxBytes) ==> CrowdedOut(rows, picked + [i], j, maxRecords, maxBytes)
  {
    forall j | 0 <= j < i && CrowdedOut(rows, picked, j, maxRecords, maxBytes) ensures CrowdedOut(rows, picked + [i], j, maxRecords, maxBytes) {
      var k: nat :| NoRoomAfter(rows, picked, k, j, maxRecords, maxBytes);
      assert (picked + [i])[..k] == picked[..k];
      assert NoRoomAfter(rows, picked + [i], k, j, maxRecords, maxBytes);
    }
  }

  lemma {:induction false} BytesGrow(rows: seq<Row>, picked: seq<nat>, k: nat)
    requires k <= |picked| && forall i :: 0 <= i < |picked| ==> picked[i] < |rows|
    ensures BytesOf(rows, picked[..k]) <= BytesOf(rows, picked)
  {
    if k < |picked| {
      assert picked[..|picked| - 1][..k] == picked[..k];
      BytesGrow(rows, picked[..|picked| - 1], k);
    } else {
      assert picked[..k] == picked;
    }
  }

  // The window is maximal: a row with an id that is left out cannot be added without breaking a cap.
  lemma NothingFits(rows: seq<Row>, picked: seq<nat>, window: Window, j: nat, maxRecords: int, maxBytes: int)
    requires Greedy(rows, picked, window, maxRecords, maxBytes) && j < |rows| && j !in picked && rows[j].request != ""
    ensures var bytes := if rows[j].totalBytes > 0 then rows[j].totalBytes else 0;
            |window.requestIds| + 1 > maxRecords || window.totalBytes + bytes > maxBytes
  {
    assert CrowdedOut(rows, picked, j, maxRecords, maxBytes);
    var k: nat :| NoRoomAfter(rows, picked, k, j, maxRecords, maxBytes);
    BytesGrow(rows, picked, k);
  }

  // How far two lists of positions agree.
  function Agreement(p: seq<nat>, q: seq<nat>): (k: nat)
    ensures k <= |p| && k <= |q| && p[..k] == q[..k]
    ensures k == |p| || k == |q| || p[k] != q[k]
  {
    if p == [] || q == [] || p[0] != q[0] then 0
    else
      var k := Agreement(p[1..], q[1..]);
      assert p[..k + 1] == [p[0]] + p[1..][..k] && q[..k + 1] == [q[0]] + q[1..][..k];
      k + 1
  }

  // A greedy window had room for each row it picked.
  lemma RoomForEach(rows: seq<Row>, p: seq<nat>, w: Window, k: nat, maxRecords: int, maxBytes: int)
    requires Greedy(rows, p, w, maxRecords, maxBytes) && k < |p|
    ensures k < maxRecords && BytesOf(rows, p[..k]) + Size(rows[p[k]]) <= maxBytes
  {
    hide CrowdedOut, Size;
    BytesGrow(rows, p, k + 1);
    assert p[..k + 1][..k] == p[..k];
  }

  // A row that is left out was crowded out by the rows picked before its position.
  lemma NoRoomForOmitted(rows: seq<Row>, q: seq<nat>, v: Window, k: nat, j: nat, maxRecords: int, maxBytes: int)
    requires Greedy(rows, q, v, maxRecords, maxBytes) && j < |rows| && j !in q && rows[j].request != ""
    requires k <= |q| && (k < |q| ==> j < q[k])
    ensures k >= maxRecords || BytesOf(rows, q[..k]) + Size(rows[j]) > maxBytes
  {
    hide Size;
    assert CrowdedOut(rows, q, j, maxRecords, maxBytes);
    var m: nat :| NoRoomAfter(rows, q, m, j, maxRecords, maxBytes);
    BytesGrow(rows, q[..k], m);
    assert q[..k][..m] == q[..m];
  }

  // So it cannot skip a row that another greedy window picks next.
  lemma NoSkip(rows: seq<Row>, p: seq<nat>, w: Window, q: seq<nat>, v: Window, k: nat, maxRecords: int, maxBytes: int)
    requires Greedy(rows, p, w, maxRecords, maxBytes) && Greedy(rows, q, v, maxRecords, maxBytes)
    requires k < |p| && k <= |q| && p[..k] == q[..k]
    ensures k < |q| && q[k] <= p[k]
  {
    hide CrowdedOut, Size, BytesOf;
    RoomForEach(rows, p, w, k, maxRecords, maxBytes);
    var j := p[k];
    if k == |q| || j < q[k] {
      forall i | 0 <= i < |q| ensures q[i] != j {
        if i < k { assert q[i] == p[..k][i]; }
      }
      NoRoomForOmitted(rows, q, v, k, j, maxRecords, maxBytes);
    }
  }

  // The window is determined: there is only one that is greedy.
  lemma GreedyIsUnique(rows: seq<Row>, p: seq<nat>, w: Window, q: seq<nat>, v: Window, maxRecords: int, maxBytes: int)
    requires Greedy(rows, p, w, maxRecords, maxBytes) && Greedy(rows, q, v, maxRecords, maxBytes)
    ensures p == q && w == v
  {
    var k := Agreement(p, q);
    if k < |p| { NoSkip(rows, p, w, q, v, k, maxRecords, maxBytes); }
    if k < |q| { NoSkip(rows, q, v, p, w, k, maxRecords, maxBytes); }
    assert p == p[..k] && q == q[..k];
  }
}
