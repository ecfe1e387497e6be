/**
 Curation of representatives: duplicates removed by digest, strata visited in turn, under a cap on
 the number of files and a cap on their bytes.

 Texts (paths, digests, strata, fingerprints) are represented by their rank in text order.
 */
module Curation {
  datatype Row = Row(path: int, digest: int, size: nat, stratum: int, fingerprint: int)

  // ---------------------------------------------------------------- what is curated

  // The rows of which no other one has the same digest and a smaller path.
  ghost function Representatives(rows: set<Row>): (reps: set<Row>) {
    set r | r in rows && forall other :: other in rows && other.digest == r.digest ==> r.path <= other.path
  }

  ghost predicate PathsAreKeys(rows: set<Row>) {
    forall a, b :: a in rows && b in rows && a.path == b.path ==> a == b
  }

  ghost predicate StrictTotalOrder<T(!new)>(less: (T, T) -> bool) {
    && (forall a :: !less(a, a))
    && (forall a, b :: a != b ==> less(a, b) || less(b, a))
    && (forall a, b, c :: less(a, b) && less(b, c) ==> less(a, c))
  }

  ghost predicate StrictlySorted<T>(less: (T, T) -> bool, s: seq<T>) {
    forall i, j :: 0 <= i < j < |s| ==> less(s[i], s[j])
  }

  predicate RowLess(a: Row, b: Row) {
    if a.fingerprint != b.fingerprint then a.fingerprint < b.fingerprint
    else if a.digest != b.digest then a.digest < b.digest
    else if a.path != b.path then a.path < b.path
    else if a.size != b.size then a.size < b.size
    else a.stratum < b.stratum
  }

  predicate StratumLess(a: int, b: int) {
    a < b
  }

  function Elements<T>(s: seq<T>): (e: set<T>) {
    set x | x in s
  }

  // The strata in order, each with its rows in order.
  ghost predicate Arranged(reps: set<Row>, strata: seq<int>, lists: seq<seq<Row>>) {
    && StrictlySorted(StratumLess, strata)
    && Elements(strata) == (set r | r in reps :: r.stratum)
    && |lists| == |strata|
    && forall i :: 0 <= i < |lists| ==>
         StrictlySorted(RowLess, lists[i]) && Elements(lists[i]) == set r | r in reps && r.stratum == strata[i]
  }

  lemma {:induction false} SortedIsUnique<T(!new)>(less: (T, T) -> bool, a: seq<T>, b: seq<T>)
    requires StrictTotalOrder(less)
    requires StrictlySorted(less, a) && StrictlySorted(less, b) && Elements(a) == Elements(b)
    ensures a == b
  {
    if a == [] {
      assert forall k :: 0 <= k < |b| ==> b[k] in Elements(b);
    } else {
      assert a[0] in Elements(b);
      assert b[0] in Elements(a);
      assert a[0] == b[0];
      forall x ensures x in Elements(a[1..]) <==> x in Elements(b[1..]) {
        if x in Elements(a[1..]) { assert x in Elements(a) && x != a[0]; }
        if x in Elements(b[1..]) { assert x in Elements(b) && x != b[0]; }
      }
      SortedIsUnique(less, a[1..], b[1..]);
      assert a == [a[0]] + a[1..] && b == [b[0]] + b[1..];
    }
  }

  lemma OrdersAreTotal()
    ensures StrictTotalOrder(RowLess) && StrictTotalOrder(StratumLess)
  {
  }

  // There is one arrangement of a set of representatives.
  lemma ArrangementIsUnique(reps: set<Row>, strata: seq<int>, lists: seq<seq<Row>>, strata': seq<int>, lists': seq<seq<Row>>)
    requires Arranged(reps, strata, lists) && Arranged(reps, strata', lists')
    ensures strata == strata' && lists == lists'
  {
    OrdersAreTotal();
    SortedIsUnique(StratumLess, strata, strata');
    forall i | 0 <= i < |lists| ensures lists[i] == lists'[i] {
      SortedIsUnique(RowLess, lists[i], lists'[i]);
    }
  }

  // ---------------------------------------------------------------- the rounds

  datatype Caps = Caps(files: nat, bytes: nat)

  datatype Pick = Pick(selected: seq<Row>, total: nat, cursors: seq<nat>)

  // The first row from `cursor` on that fits into `room`.
  function NextFit(list: seq<Row>, cursor: nat, room: int): (next: nat)
    requires cursor <= |list|
    ensures cursor <= next <= |list|
    ensures forall k :: cursor <= k < next ==> list[k].size > room
    ensures next < |list| ==> list[next].size <= room
    decreases |list| - cursor
  {
    if cursor == |list| || list[cursor].size <= room then cursor else NextFit(list, cursor + 1, room)
  }

  ghost predicate InRange(lists: seq<seq<Row>>, p: Pick) {
    |p.cursors| == |lists| && forall i :: 0 <= i < |lists| ==> p.cursors[i] <= |lists[i]|
  }

  // One stratum's turn.
  function Turn(lists: seq<seq<Row>>, caps: Caps, i: nat, p: Pick): (q: Pick)
    requires i < |lists| && InRange(lists, p)
    ensures InRange(lists, q) && |p.selected| <= |q.selected| <= |p.selected| + 1
  {
    var next := NextFit(lists[i], p.cursors[i], caps.bytes - p.total);
    if next == |lists[i]| then p.(cursors := p.cursors[i := next])
    else Pick(p.selected + [lists[i][next]], p.total + lists[i][next].size, p.cursors[i := next + 1])
  }

  // The turns of the strata from `i` on, until the file cap is reached.
  function Pass(lists: seq<seq<Row>>, caps: Caps, i: nat, p: Pick): (q: Pick)
    requires i <= |lists| && InRange(lists, p)
    ensures InRange(lists, q) && |p.selected| <= |q.selected|
    decreases |lists| - i
  {
    if i == |lists| then p
    else
      var q := Turn(lists, caps, i, p);
      if |q.selected| >= caps.files then q else Pass(lists, caps, i + 1, q)
  }

  // Passes until the file cap is reached or one of them selects nothing.
  function Rounds(lists: seq<seq<Row>>, caps: Caps, p: Pick): (q: Pick)
    requires InRange(lists, p)
    ensures InRange(lists, q)
    decreases caps.files - |p.selected|
  {
    if |p.selected| >= caps.files || lists == [] then p
    else
      var q := Pass(lists, caps, 0, p);
      if |q.selected| == |p.selected| then q else Rounds(lists, caps, q)
  }

  function Start(lists: seq<seq<Row>>): (p: Pick)
    ensures InRange(lists, p)
  {
    Pick([], 0, seq(|lists|, _ => 0))
  }

  // ---------------------------------------------------------------- what every turn keeps

  function Bytes(rows: seq<Row>): (total: nat) {
    if rows == [] then 0 else Bytes(rows[..|rows| - 1]) + rows[|rows| - 1].size
  }

  function Count(rows: seq<Row>, stratum: int): (n: nat) {
    if rows == [] then 0
    else Count(rows[..|rows| - 1], stratum) + if rows[|rows| - 1].stratum == stratum then 1 else 0
  }

  // The lists hold different rows, each in the list of its own stratum.
  ghost predicate Separate(strata: seq<int>, lists: seq<seq<Row>>) {
    && |strata| == |lists| && StrictlySorted(StratumLess, strata)
    && (forall i, k :: 0 <= i < |lists| && 0 <= k < |lists[i]| ==> lists[i][k].stratum == strata[i])
    && (forall i, k, l :: 0 <= i < |lists| && 0 <= k < l < |lists[i]| ==> lists[i][k] != lists[i][l])
  }

  ghost predicate Distinct(rows: seq<Row>) {
    forall i, j :: 0 <= i < j < |rows| ==> rows[i] != rows[j]
  }

  // The selected rows lie before the cursors.
  ghost predicate Located(lists: seq<seq<Row>>, p: Pick) {
    InRange(lists, p) && forall r :: r in p.selected ==> Passed(lists, p, r)
  }

  ghost predicate Passed(lists: seq<seq<Row>>, p: Pick, r: Row)
    requires InRange(lists, p)
  {
    exists i, k :: 0 <= i < |lists| && 0 <= k < p.cursors[i] && r == lists[i][k]
  }

  // Every row before a cursor is selected or overflows what room is left.
  ghost predicate Considered(lists: seq<seq<Row>>, caps: Caps, p: Pick) {
    InRange(lists, p) && forall i, k :: 0 <= i < |lists| && 0 <= k < p.cursors[i] ==>
      lists[i][k] in p.selected || p.total + lists[i][k].size > caps.bytes
  }

  ghost predicate Sound(lists: seq<seq<Row>>, caps: Caps, p: Pick) {
    && InRange(lists, p) && p.total == Bytes(p.selected) <= caps.bytes
    && Distinct(p.selected) && Located(lists, p) && Considered(lists, caps, p)
  }

  // In round `n`, with the strata before `i` already served: who is behind has no rows left.
  ghost predicate Fair(strata: seq<int>, lists: seq<seq<Row>>, p: Pick, n: nat, i: nat) {
    && InRange(lists, p) && |strata| == |lists|
    && forall j :: 0 <= j < |lists| ==>
         var served := n + if j < i then 1 else 0;
         Count(p.selected, strata[j]) <= served
         && (p.cursors[j] < |lists[j]| ==> Count(p.selected, strata[j]) == served)
  }

  lemma TurnLocates(strata: seq<int>, lists: seq<seq<Row>>, caps: Caps, i: nat, p: Pick)
    requires i < |lists| && Separate(strata, lists) && Located(lists, p)
    ensures Located(lists, Turn(lists, caps, i, p))
  {
    var q := Turn(lists, caps, i, p);
    forall r | r in q.selected ensures Passed(lists, q, r) {
      if r in p.selected {
        var j, k :| 0 <= j < |lists| && 0 <= k < p.cursors[j] && r == lists[j][k];
        assert k < q.cursors[j];
      } else {
        assert r == lists[i][q.cursors[i] - 1];
      }
    }
  }

  lemma TurnSelectsANewRow(strata: seq<int>, lists: seq<seq<Row>>, caps: Caps, i: nat, p: Pick)
    requires i < |lists| && Separate(strata, lists) && Located(lists, p) && Distinct(p.selected)
    ensures Distinct(Turn(lists, caps, i, p).selected)
  {
    var next := NextFit(lists[i], p.cursors[i], caps.bytes - p.total);
    if next < |lists[i]| {
      var row := lists[i][next];
      forall j, k | 0 <= j < |lists| && 0 <= k < p.cursors[j] ensures lists[j][k] != row {
        assert j != i ==> strata[j] != strata[i];
      }
      assert row !in p.selected;
    }
  }

  lemma TurnConsiders(lists: seq<seq<Row>>, caps: Caps, i: nat, p: Pick)
    requires i < |lists| && Considered(lists, caps, p)
    ensures Considered(lists, caps, Turn(lists, caps, i, p))
  {
    var q := Turn(lists, caps, i, p);
    assert forall r :: r in p.selected ==> r in q.selected;
    forall j, k | 0 <= j < |lists| && 0 <= k < q.cursors[j]
      ensures lists[j][k] in q.selected || q.total + lists[j][k].size > caps.bytes
    {
      if k < p.cursors[j] {
        assert lists[j][k] in p.selected || p.total + lists[j][k].size > caps.bytes;
      } else if |q.selected| > |p.selected| && k == q.cursors[j] - 1 {
        assert lists[j][k] == q.selected[|p.selected|];
      }
    }
  }

  lemma TurnIsSound(strata: seq<int>, lists: seq<seq<Row>>, caps: Caps, i: nat, p: Pick)
    requires i < |lists| && Separate(strata, lists) && Sound(lists, caps, p)
    ensures Sound(lists, caps, Turn(lists, caps, i, p))
  {
    hide Located, Considered, Distinct;
    TurnLocates(strata, lists, caps, i, p);
    TurnSelectsANewRow(strata, lists, caps, i, p);
    TurnConsiders(lists, caps, i, p);
    var q := Turn(lists, caps, i, p);
    assert |q.selected| > |p.selected| ==> q.selected[..|p.selected|] == p.selected;
  }

  lemma TurnIsFair(strata: seq<int>, lists: seq<seq<Row>>, caps: Caps, i: nat, p: Pick, n: nat)
    requires i < |lists| && Separate(strata, lists) && Fair(strata, lists, p, n, i)
    ensures Fair(strata, lists, Turn(lists, caps, i, p), n, i + 1)
  {
    var q := Turn(lists, caps, i, p);
    assert |q.selected| > |p.selected| ==> q.selected[..|p.selected|] == p.selected;
  }

  lemma SoundInRange(lists: seq<seq<Row>>, caps: Caps, p: Pick)
    requires Sound(lists, caps, p)
    ensures InRange(lists, p)
  {}

  // Served all, every stratum is served once more.
  lemma FairInRange(strata: seq<int>, lists: seq<seq<Row>>, p: Pick, n: nat, i: nat)
    requires Fair(strata, lists, p, n, i)
    ensures InRange(lists, p) && (i == |lists| ==> Fair(strata, lists, p, n + 1, 0))
  {}

  lemma {:induction false} PassKeeps(strata: seq<int>, lists: seq<seq<Row>>, caps: Caps, i: nat, p: Pick, n: nat)
    requires i <= |lists| && Separate(strata, lists) && Sound(lists, caps, p) && Fair(strata, lists, p, n, i)
    requires |p.selected| < caps.files
    ensures var q := Pass(lists, caps, i, p);
            && Sound(lists, caps, q) && |q.selected| <= caps.files
            && (|q.selected| < caps.files ==> Fair(strata, lists, q, n + 1, 0))
            && exists j :: 0 <= j <= |lists| && Fair(strata, lists, q, n, j)
    decreases |lists| - i
  {
    SoundInRange(lists, caps, p);
    FairInRange(strata, lists, p, n, i);
    hide Sound, Fair, Turn, InRange;
    if i < |lists| {
      TurnIsSound(strata, lists, caps, i, p);
      TurnIsFair(strata, lists, caps, i, p, n);
      var q := Turn(lists, caps, i, p);
      if |q.selected| < caps.files {
        PassKeeps(strata, lists, caps, i + 1, q, n);
      }
    }
  }

  // A pass that selects nothing has run through every list.
  lemma {:induction false} IdlePassIsExhaustive(lists: seq<seq<Row>>, caps: Caps, i: nat, p: Pick)
    requires i <= |lists| && InRange(lists, p) && |p.selected| < caps.files
    requires |Pass(lists, caps, i, p).selected| == |p.selected|
    ensures forall j :: i <= j < |lists| ==> Pass(lists, caps, i, p).cursors[j] == |lists[j]|
    ensures forall j :: 0 <= j < i ==> Pass(lists, caps, i, p).cursors[j] == p.cursors[j]
    decreases |lists| - i
  {
    if i < |lists| {
      IdlePassIsExhaustive(lists, caps, i + 1, Turn(lists, caps, i, p));
    }
  }

  // ---------------------------------------------------------------- what a curation guarantees

  // Rejected rows do not fit any more, unless the file cap is reached.
  ghost predicate Maximal(reps: set<Row>, caps: Caps, selected: seq<Row>) {
    |selected| < caps.files ==>
      forall r :: r in reps && r !in selected ==> Bytes(selected) + r.size > caps.bytes
  }

  // A stratum with a rejected row that would still fit trails no other one by more than one.
  ghost predicate Balanced(reps: set<Row>, caps: Caps, selected: seq<Row>) {
    forall r, t :: r in reps && r !in selected && Bytes(selected) + r.size <= caps.bytes ==>
      Count(selected, t) <= Count(selected, r.stratum) + 1
  }

  // A stratum whose rows were not all considered trails no other one by more than one.
  ghost predicate Even(strata: seq<int>, lists: seq<seq<Row>>, p: Pick) {
    && InRange(lists, p) && |strata| == |lists|
    && forall i, j :: 0 <= i < |lists| && 0 <= j < |lists| && p.cursors[i] < |lists[i]| ==>
                        Count(p.selected, strata[j]) <= Count(p.selected, strata[i]) + 1
  }

  ghost predicate Curated(reps: set<Row>, caps: Caps, selected: seq<Row>) {
    && |selected| <= caps.files && Bytes(selected) <= caps.bytes
    && Distinct(selected) && (forall r :: r in selected ==> r in reps)
    && Maximal(reps, caps, selected) && Balanced(reps, caps, selected)
  }

  lemma {:induction false} RoundsKeep(strata: seq<int>, lists: seq<seq<Row>>, caps: Caps, p: Pick, n: nat)
    requires Separate(strata, lists) && Sound(lists, caps, p) && |p.selected| <= caps.files
    requires |p.selected| < caps.files ==> Fair(strata, lists, p, n, 0)
    requires exists m, j :: 0 <= j <= |lists| && Fair(strata, lists, p, m, j)
    ensures var q := Rounds(lists, caps, p);
            && Sound(lists, caps, q) && |q.selected| <= caps.files
            && (|q.selected| < caps.files ==> forall j :: 0 <= j < |lists| ==> q.cursors[j] == |lists[j]|)
            && exists m, j :: 0 <= j <= |lists| && Fair(strata, lists, q, m, j)
    decreases caps.files - |p.selected|
  {
    if |p.selected| < caps.files && lists != [] {
      PassKeeps(strata, lists, caps, 0, p, n);
      var q := Pass(lists, caps, 0, p);
      if |q.selected| == |p.selected| {
        IdlePassIsExhaustive(lists, caps, 0, p);
      } else {
        RoundsKeep(strata, lists, caps, q, n + 1);
      }
    }
  }

  // The list that holds a representative.
  lemma ListOf(reps: set<Row>, strata: seq<int>, lists: seq<seq<Row>>, r: Row) returns (i: nat, k: nat)
    requires Arranged(reps, strata, lists) && r in reps
    ensures i < |lists| && k < |lists[i]| && lists[i][k] == r && strata[i] == r.stratum
  {
    assert r.stratum in Elements(strata);
    i :| 0 <= i < |strata| && strata[i] == r.stratum;
    assert r in Elements(lists[i]);
    k :| 0 <= k < |lists[i]| && lists[i][k] == r;
  }

  lemma ArrangedIsSeparate(reps: set<Row>, strata: seq<int>, lists: seq<seq<Row>>)
    requires Arranged(reps, strata, lists)
    ensures Separate(strata, lists)
    ensures forall i, k :: 0 <= i < |lists| && 0 <= k < |lists[i]| ==> lists[i][k] in reps
  {
    forall i, k | 0 <= i < |lists| && 0 <= k < |lists[i]| ensures lists[i][k] in reps && lists[i][k].stratum == strata[i] {
      assert lists[i][k] in Elements(lists[i]);
    }
  }

  // Whatever the caps, the rounds over an arrangement give a curation of its representatives.
  lemma RoundsCurate(reps: set<Row>, strata: seq<int>, lists: seq<seq<Row>>, caps: Caps)
    requires Arranged(reps, strata, lists)
    ensures Curated(reps, caps, Rounds(lists, caps, Start(lists)).selected)
    ensures Even(strata, lists, Rounds(lists, caps, Start(lists)))
  {
    ArrangedIsSeparate(reps, strata, lists);
    var p := Start(lists);
    assert Fair(strata, lists, p, 0, 0);
    RoundsKeep(strata, lists, caps, p, 0);
    var q := Rounds(lists, caps, p);
    forall r | r in q.selected ensures r in reps {
      assert Passed(lists, q, r);
    }
    forall r | r in reps && r !in q.selected && |q.selected| < caps.files
      ensures Bytes(q.selected) + r.size > caps.bytes
    {
      var i, k := ListOf(reps, strata, lists, r);
    }
    var m, j :| 0 <= j <= |lists| && Fair(strata, lists, q, m, j);
    forall r, t | r in reps && r !in q.selected && Bytes(q.selected) + r.size <= caps.bytes
      ensures Count(q.selected, t) <= Count(q.selected, r.stratum) + 1
    {
      var i, k := ListOf(reps, strata, lists, r);
      CountOfForeign(strata, lists, q, m, j, t);
    }
  }

  lemma CountOfForeign(strata: seq<int>, lists: seq<seq<Row>>, q: Pick, m: nat, j: nat, t: int)
    requires Separate(strata, lists) && Located(lists, q) && Fair(strata, lists, q, m, j)
    ensures Count(q.selected, t) <= m + 1
  {
    if t in strata {
      var i :| 0 <= i < |strata| && strata[i] == t;
    } else {
      forall r | r in q.selected ensures r.stratum != t {
        assert Passed(lists, q, r);
      }
      CountNone(q.selected, t);
    }
  }

  lemma {:induction false} CountNone(rows: seq<Row>, t: int)
    requires forall r :: r in rows ==> r.stratum != t
    ensures Count(rows, t) == 0
  {
    if rows != [] {
      CountNone(rows[..|rows| - 1], t);
    }
  }

  // ---------------------------------------------------------------- the loops

  // Keep, for each digest, the row with the smallest path.
  method Deduplicate(rows: seq<Row>) returns (reps: set<Row>)
    ensures PathsAreKeys(Elements(rows)) ==> reps == Representatives(Elements(rows))
  {
    var deduped: map<int, Row> := map[];
    for k := 0 to |rows|
      invariant forall d :: d in deduped ==> deduped[d].digest == d && deduped[d] in rows[..k]
      invariant forall r :: r in rows[..k] ==> r.digest in deduped && deduped[r.digest].path <= r.path
    {
      var row := rows[k];
      assert rows[..k + 1] == rows[..k] + [row];
      if row.digest !in deduped || row.path < deduped[row.digest].path {
        deduped := deduped[row.digest := row];
      }
    }
    assert rows[..|rows|] == rows;
    reps := set d | d in deduped :: deduped[d];
    if PathsAreKeys(Elements(rows)) {
      forall r | r in Representatives(Elements(rows)) ensures r in reps {
        assert deduped[r.digest] in Elements(rows);
      }
      forall r | r in reps ensures r in Representatives(Elements(rows)) {
        assert r in Elements(rows);
      }
    }
  }

  // Put `x` into a sorted list it is not in.
  method InsertSorted<T(!new)>(less: (T, T) -> bool, sorted: seq<T>, x: T) returns (longer: seq<T>)
    requires StrictTotalOrder(less) && StrictlySorted(less, sorted) && x !in sorted
    ensures StrictlySorted(less, longer) && Elements(longer) == Elements(sorted) + {x}
  {
    var i := 0;
    while i < |sorted| && less(sorted[i], x)
      invariant 0 <= i <= |sorted|
      invariant forall k :: 0 <= k < i ==> less(sorted[k], x)
    {
      i := i + 1;
    }
    forall k | i <= k < |sorted| ensures less(x, sorted[k]) {
      assert less(x, sorted[i]);
    }
    longer := sorted[..i] + [x] + sorted[i..];
    assert sorted == sorted[..i] + sorted[i..];
  }

  // Group the representatives into strata and order both.
  method Arrange(reps: set<Row>) returns (strata: seq<int>, lists: seq<seq<Row>>)
    ensures Arranged(reps, strata, lists)
    ensures forall i, j :: 0 <= i < j < |strata| ==> strata[i] < strata[j]
    // Within a stratum by fingerprint, then by digest, then by path.
    ensures forall s, i, j :: 0 <= s < |lists| && 0 <= i < j < |lists[s]| ==>
              var a, b := lists[s][i], lists[s][j];
              && a.fingerprint <= b.fingerprint
              && (a.fingerprint == b.fingerprint ==> a.digest <= b.digest && (a.digest == b.digest ==> a.path <= b.path))
  {
    OrdersAreTotal();
    strata, lists := [], [];
    var left := reps;
    ghost var grouped: set<Row> := {};
    while left != {}
      invariant grouped + left == reps && grouped !! left
      invariant StrictlySorted(StratumLess, strata) && Elements(strata) == (set r | r in grouped :: r.stratum)
      decreases left
    {
      var row :| row in left;
      if row.stratum !in strata {
        strata := InsertSorted(StratumLess, strata, row.stratum);
      }
      left, grouped := left - {row}, grouped + {row};
    }
    for i := 0 to |strata|
      invariant |lists| == i
      invariant forall j :: 0 <= j < i ==>
                  StrictlySorted(RowLess, lists[j]) && Elements(lists[j]) == set r | r in reps && r.stratum == strata[j]
    {
      var list := SortStratum(reps, strata[i]);
      lists := lists + [list];
    }
  }

  method SortStratum(reps: set<Row>, stratum: int) returns (list: seq<Row>)
    ensures StrictlySorted(RowLess, list) && Elements(list) == set r | r in reps && r.stratum == stratum
  {
    OrdersAreTotal();
    list := [];
    var left := set r | r in reps && r.stratum == stratum;
    ghost var all := left;
    while left != {}
      invariant StrictlySorted(RowLess, list) && Elements(list) + left == all && Elements(list) !! left
      decreases left
    {
      var row :| row in left;
      assert row !in list by { assert row !in Elements(list); }
      list := InsertSorted(RowLess, list, row);
      left := left - {row};
    }
  }

  // The inner loop of a turn.
  method ServeStratum(lists: seq<seq<Row>>, caps: Caps, i: nat, p: Pick) returns (q: Pick, progress: bool)
    requires i < |lists| && InRange(lists, p)
    ensures q == Turn(lists, caps, i, p) && progress == (|q.selected| > |p.selected|)
  {
    var values, cursor := lists[i], p.cursors[i];
    while cursor < |values|
      invariant p.cursors[i] <= cursor <= |values|
      invariant NextFit(values, p.cursors[i], caps.bytes - p.total) == NextFit(values, cursor, caps.bytes - p.total)
    {
      var candidate := values[cursor];
      cursor := cursor + 1;
      if p.total + candidate.size > caps.bytes {
        continue;
      }
      return Pick(p.selected + [candidate], p.total + candidate.size, p.cursors[i := cursor]), true;
    }
    return p.(cursors := p.cursors[i := cursor]), false;
  }

  method RoundRobin(lists: seq<seq<Row>>, caps: Caps) returns (p: Pick)
    ensures p == Rounds(lists, caps, Start(lists))
  {
    p := Start(lists);
    while |p.selected| < caps.files && lists != []
      invariant InRange(lists, p)
      invariant Rounds(lists, caps, Start(lists)) == Rounds(lists, caps, p)
      decreases caps.files - |p.selected|
    {
      var madeProgress := false;
      ghost var before := p;
      var i := 0;
      while i < |lists|
        invariant 0 <= i <= |lists| && InRange(lists, p)
        invariant |before.selected| <= |p.selected| < caps.files
        invariant madeProgress == (|p.selected| > |before.selected|)
        invariant Pass(lists, caps, 0, before) == Pass(lists, caps, i, p)
      {
        var progress;
        ghost var here := p;
        p, progress := ServeStratum(lists, caps, i, p);
        madeProgress := madeProgress || progress;
        if |p.selected| >= caps.files {
          assert Pass(lists, caps, 0, before) == p;
          break;
        }
        i := i + 1;
      }
      assert p == Pass(lists, caps, 0, before);
      if !madeProgress {
        break;
      }
    }
  }

  // The curation of a catalog's rows.
  ghost predicate IsCurationOf(rows: set<Row>, caps: Caps, selected: seq<Row>) {
    exists strata, lists :: Arranged(Representatives(rows), strata, lists)
      && selected == Rounds(lists, caps, Start(lists)).selected
  }

  method CurateRepresentatives(rows: seq<Row>, maxFiles: int, maxSourceBytes: int) returns (selected: seq<Row>)
    requires PathsAreKeys(Elements(rows))
    ensures maxFiles <= 0 || maxSourceBytes <= 0 ==> selected == []
    ensures maxFiles > 0 && maxSourceBytes > 0 ==>
              && IsCurationOf(Elements(rows), Caps(maxFiles, maxSourceBytes), selected)
              && Curated(Representatives(Elements(rows)), Caps(maxFiles, maxSourceBytes), selected)
  {
    if maxFiles <= 0 || maxSourceBytes <= 0 {
      return [];
    }
    var deduped := Deduplicate(rows);
    var strata, lists := Arrange(deduped);
    var pick := RoundRobin(lists, Caps(maxFiles, maxSourceBytes));
    RoundsCurate(deduped, strata, lists, Caps(maxFiles, maxSourceBytes));
    return pick.selected;
  }

  // No digest is selected twice.
  lemma NoDigestTwice(rows: set<Row>, caps: Caps, selected: seq<Row>)
    requires PathsAreKeys(rows) && Curated(Representatives(rows), caps, selected)
    ensures forall i, j :: 0 <= i < j < |selected| ==> selected[i].digest != selected[j].digest
  {
    forall i, j | 0 <= i < j < |selected| ensures selected[i].digest != selected[j].digest {
      assert selected[i] in selected && selected[j] in selected;
    }
  }

  // The selection depends on the rows alone, not on the order the catalog lists them in.
  lemma CurationIsUnique(rows: set<Row>, caps: Caps, a: seq<Row>, b: seq<Row>)
    requires IsCurationOf(rows, caps, a) && IsCurationOf(rows, caps, b)
    ensures a == b
  {
    var reps := Representatives(rows);
    var strata, lists :| Arranged(reps, strata, lists) && a == Rounds(lists, caps, Start(lists)).selected;
    var strata', lists' :| Arranged(reps, strata', lists') && b == Rounds(lists', caps, Start(lists')).selected;
    ArrangementIsUnique(reps, strata, lists, strata', lists');
  }

  // ---------------------------------------------------------------- shrinking a bundle

  // Two builds of a selection: their sizes and whether they came out identical.
  datatype Build = Build(firstBytes: nat, secondBytes: nat, identical: bool)

  datatype BundleResult =
    | Bundle(selected: seq<Row>, bytes: nat, reductions: nat)
    | BadCaps
    | NoRepresentatives
    | CannotShrink

  const MAX_CURATED_REPRESENTATIVES: int := 4096
  const MIN_BUNDLE_BYTES: int := 1024

  ghost predicate Fits(b: Build, maxBundleBytes: int) {
    b.firstBytes <= maxBundleBytes && b.secondBytes <= maxBundleBytes && b.identical
  }

  // The byte cap after `k` reductions.
  ghost function SourceCap(maxBundleBytes: nat, k: nat): (cap: nat) {
    if k == 0 then maxBundleBytes / 2
    else
      var shrunk := SourceCap(maxBundleBytes, k - 1) * 3 / 4;
      if shrunk < 1 then 1 else shrunk
  }

  // The selection of `k` reductions, whichever way the loops above arrive at it, does not fit.
  ghost predicate Rejected(rows: set<Row>, files: nat, maxBundleBytes: nat, build: seq<Row> -> Build, k: nat) {
    exists selected :: IsCurationOf(rows, Caps(files, SourceCap(maxBundleBytes, k)), selected) && selected != []
      && !Fits(build(selected), maxBundleBytes)
  }

  method BuildCuratedBundle(rows: seq<Row>, maxFiles: int, maxBundleBytes: int, build: seq<Row> -> Build)
    returns (result: BundleResult)
    requires PathsAreKeys(Elements(rows))
    ensures result.BadCaps? <==> maxFiles < 1 || maxFiles > MAX_CURATED_REPRESENTATIVES || maxBundleBytes < MIN_BUNDLE_BYTES
    // The first selection of the chain of caps that fits, and no larger than the cap.
    ensures result.Bundle? ==>
              && result.bytes <= maxBundleBytes && result.bytes == build(result.selected).firstBytes
              && Fits(build(result.selected), maxBundleBytes) && result.selected != []
              && IsCurationOf(Elements(rows), Caps(maxFiles, SourceCap(maxBundleBytes, result.reductions)), result.selected)
              && forall k :: 0 <= k < result.reductions ==> Rejected(Elements(rows), maxFiles, maxBundleBytes, build, k)
    // Giving up means that even the smallest cap, one byte, was tried.
    ensures result.CannotShrink? ==>
              exists n :: SourceCap(maxBundleBytes, n) == 1
                && forall k :: 0 <= k <= n ==> Rejected(Elements(rows), maxFiles, maxBundleBytes, build, k)
    // Nothing to select means that all larger caps were tried, too.
    ensures result.NoRepresentatives? ==>
              exists n: nat :: IsCurationOf(Elements(rows), Caps(maxFiles, SourceCap(maxBundleBytes, n)), [])
                && forall k :: 0 <= k < n ==> Rejected(Elements(rows), maxFiles, maxBundleBytes, build, k)
  {
    hide IsCurationOf, Curated, Representatives, Elements, PathsAreKeys;
    if maxFiles < 1 || maxFiles > MAX_CURATED_REPRESENTATIVES || maxBundleBytes < MIN_BUNDLE_BYTES {
      return BadCaps;
    }
    var sourceCap, attempts := maxBundleBytes / 2, 0;
    while true
      invariant sourceCap == SourceCap(maxBundleBytes, attempts) && sourceCap >= 1
      invariant forall k :: 0 <= k < attempts ==> Rejected(Elements(rows), maxFiles, maxBundleBytes, build, k)
      decreases sourceCap
    {
      var selected := CurateRepresentatives(rows, maxFiles, if sourceCap < 1 then 1 else sourceCap);
      if selected == [] {
        return NoRepresentatives;
      }
      var built := build(selected);
      if built.firstBytes <= maxBundleBytes && built.secondBytes <= maxBundleBytes && built.identical {
        return Bundle(selected, built.firstBytes, attempts);
      }
      assert Rejected(Elements(rows), maxFiles, maxBundleBytes, build, attempts);
      var shrunk := sourceCap * 3 / 4;
      var nextCap := if shrunk < 1 then 1 else shrunk;
      attempts := attempts + 1;
      if nextCap >= sourceCap {
        assert SourceCap(maxBundleBytes, attempts - 1) == 1;
        return CannotShrink;
      }
      sourceCap := nextCap;
    }
  }
}
