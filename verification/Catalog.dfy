/**
 The restartable corpus catalog: a table derived from the files of a corpus, kept in a database
 across scans, crashes and changes of the derivation contract.

 Size and mtime are taken to determine a file's content, and deriving a row to be deterministic, so
 that an entry of the corpus is what `stat` says of it.
 */
module Catalog {
  import opened Wrappers

  type Path = string

  // The versions that determine every derived row, as one fingerprint.
  type Contract = string

  // A path of the corpus: a file below the root, or a path that does not lead to one, with the reason.
  datatype Entry = Regular(size: nat, mtime: nat) | Unreachable(reason: Reason)

  // It leads out of the root, or nowhere, like a broken link.
  datatype Reason = OutsideRoot | Unresolved

  // A row: the stat it was derived at, whether it holds an analysis or an error, and which.
  datatype Row = Row(size: nat, mtime: nat, ok: bool, data: int)

  type Table = map<Path, Row>
  type Files = map<Path, Entry>

  datatype ScanState = Stale | InProgress | Current

  datatype Db = Db(root: Option<string>, scanState: ScanState, derivation: Option<Contract>, rows: Table)

  const COMMIT_INTERVAL := 256

  // The analysis of a file; None is an error row, whose data says which error.
  datatype Analysis = Analysis(ok: bool, data: int)

  datatype Analyzer = Analyzer(analyze: (Contract, Path, nat, nat) -> Analysis, failure: (Path, Reason) -> int)

  // The row a scan without a catalog would write.
  function Derive(a: Analyzer, contract: Contract, p: Path, e: Entry): (row: Row) {
    match e
    case Regular(size, mtime) =>
      var r := a.analyze(contract, p, size, mtime);
      Row(size, mtime, r.ok, r.data)
    case Unreachable(reason) => Row(0, 0, false, a.failure(p, reason))
  }

  // A row that may have been derived, under this contract, from some state of its path.
  ghost predicate Genuine(a: Analyzer, contract: Contract, p: Path, row: Row) {
    exists e :: row == Derive(a, contract, p, e)
  }

  // The row says that the path cannot be reached.
  ghost predicate SaysUnreachable(a: Analyzer, contract: Contract, p: Path, row: Row) {
    exists reason :: row == Derive(a, contract, p, Unreachable(reason))
  }

  // The row of `p` is the one derived from `e`, or it is the error row of an unreachable path and `e` an
  // empty file with mtime zero: the one pair of states that stat-only reuse confuses.
  ghost predicate Right(a: Analyzer, contract: Contract, p: Path, row: Row, e: Entry) {
    || row == Derive(a, contract, p, e)
    || (e == Regular(0, 0) && SaysUnreachable(a, contract, p, row))
  }

  // The table that deriving every file from scratch gives.
  ghost predicate FromScratch(a: Analyzer, contract: Contract, rows: Table, files: Files) {
    rows.Keys == files.Keys && forall p :: p in files ==> rows[p] == Derive(a, contract, p, files[p])
  }

  ghost predicate Faithful(a: Analyzer, contract: Contract, rows: Table, files: Files) {
    rows.Keys == files.Keys && forall p :: p in files ==> Right(a, contract, p, rows[p], files[p])
  }

  // The paths of a walk, each with what its last visit found.
  function Found(visits: seq<(Path, Entry)>): (files: Files) {
    if visits == [] then map[]
    else Found(visits[..|visits| - 1])[visits[|visits| - 1].0 := visits[|visits| - 1].1]
  }

  // Whether the stored row of a visited path is kept.
  predicate Kept(rows: Table, p: Path, e: Entry, reuseAllowed: bool, retryErrors: bool) {
    && reuseAllowed && e.Regular? && p in rows
    && rows[p].size == e.size && rows[p].mtime == e.mtime && !(retryErrors && !rows[p].ok)
  }

  // The table after the visits of a scan, before the paths it did not find are removed.
  function ScanRows(a: Analyzer, contract: Contract, rows: Table, visits: seq<(Path, Entry)>,
                    reuseAllowed: bool, retryErrors: bool): (scanned: Table)
  {
    if visits == [] then rows
    else
      var before := ScanRows(a, contract, rows, visits[..|visits| - 1], reuseAllowed, retryErrors);
      var (p, e) := visits[|visits| - 1];
      if Kept(before, p, e, reuseAllowed, retryErrors) then before else before[p := Derive(a, contract, p, e)]
  }

  function FoundRows(scanned: Table, files: Files): (rows: Table) {
    map p | p in scanned && p in files :: scanned[p]
  }

  // When rows may be reused only if they were derived under this contract, a scan leaves a row for
  // every path it found, and the right one.
  lemma {:induction false} ScanIsFaithful(a: Analyzer, contract: Contract, rows: Table, visits: seq<(Path, Entry)>,
                                          reuseAllowed: bool, retryErrors: bool)
    requires reuseAllowed ==> forall p :: p in rows ==> Genuine(a, contract, p, rows[p])
    ensures var scanned := ScanRows(a, contract, rows, visits, reuseAllowed, retryErrors);
            && (reuseAllowed ==> forall p :: p in scanned ==> Genuine(a, contract, p, scanned[p]))
            && (forall p :: p in Found(visits) ==> p in scanned && Right(a, contract, p, scanned[p], Found(visits)[p]))
            && Faithful(a, contract, FoundRows(scanned, Found(visits)), Found(visits))
  {
    if visits != [] {
      var n := |visits| - 1;
      ScanIsFaithful(a, contract, rows, visits[..n], reuseAllowed, retryErrors);
      var (p, e) := visits[n];
      assert Genuine(a, contract, p, Derive(a, contract, p, e));
    }
    var scanned := ScanRows(a, contract, rows, visits, reuseAllowed, retryErrors);
    assert FoundRows(scanned, Found(visits)).Keys == Found(visits).Keys;
  }

  // A path that a walk lists twice, a file and a link to it, is found in the same state.
  ghost predicate Steady(visits: seq<(Path, Entry)>) {
    forall i, j :: 0 <= i < j < |visits| && visits[i].0 == visits[j].0 ==> visits[i].1 == visits[j].1
  }

  // One scan: the rows it started from, what the walk found, and which rows it was allowed to keep.
  datatype ScanRun = ScanRun(before: Table, visits: seq<(Path, Entry)>, reuseAllowed: bool, retryErrors: bool)

  function RowsAfter(a: Analyzer, contract: Contract, run: ScanRun): (rows: Table) {
    FoundRows(ScanRows(a, contract, run.before, run.visits, run.reuseAllowed, run.retryErrors), Found(run.visits))
  }

  // An empty file with mtime zero is found where the table holds, and the scan keeps, the error row of an
  // unreachable path, which is not the row of the file.
  ghost predicate Confused(a: Analyzer, contract: Contract, run: ScanRun, p: Path) {
    && p in Found(run.visits) && Found(run.visits)[p] == Regular(0, 0)
    && Kept(run.before, p, Regular(0, 0), run.reuseAllowed, run.retryErrors)
    && SaysUnreachable(a, contract, p, run.before[p]) && run.before[p] != Derive(a, contract, p, Regular(0, 0))
  }

  lemma {:induction false} FoundIsListed(visits: seq<(Path, Entry)>, p: Path) returns (k: nat)
    requires p in Found(visits)
    ensures k < |visits| && visits[k] == (p, Found(visits)[p])
  {
    k := |visits| - 1;
    if visits[k].0 != p {
      k := FoundIsListed(visits[..k], p);
    }
  }

  lemma KeptByItsRow(rows: Table, others: Table, p: Path, e: Entry, reuseAllowed: bool, retryErrors: bool)
    requires p in others ==> p in rows && rows[p] == others[p]
    requires p !in others ==> p !in rows
    ensures Kept(rows, p, e, reuseAllowed, retryErrors) <==> Kept(others, p, e, reuseAllowed, retryErrors)
  {}

  // The row that a scan leaves for a path of its walk is the old one if that may be kept, else a new one.
  lemma {:induction false} RowOfPath(a: Analyzer, contract: Contract, run: ScanRun, p: Path)
    requires Steady(run.visits)
    ensures var scanned := ScanRows(a, contract, run.before, run.visits, run.reuseAllowed, run.retryErrors);
            var found := Found(run.visits);
            if p in found then
              && p in scanned
              && scanned[p] == if Kept(run.before, p, found[p], run.reuseAllowed, run.retryErrors) then run.before[p]
                               else Derive(a, contract, p, found[p])
            else (p in scanned <==> p in run.before) && (p in scanned ==> scanned[p] == run.before[p])
    decreases |run.visits|
  {
    hide Derive;
    if run.visits != [] {
      var n := |run.visits| - 1;
      var rest := run.(visits := run.visits[..n]);
      RowOfPath(a, contract, rest, p);
      var earlier := ScanRows(a, contract, run.before, rest.visits, run.reuseAllowed, run.retryErrors);
      if p in Found(rest.visits) && run.visits[n].0 == p {
        var k := FoundIsListed(rest.visits, p);
        assert run.visits[k] == rest.visits[k];
      } else if p !in Found(rest.visits) {
        KeptByItsRow(earlier, run.before, p, run.visits[n].1, run.reuseAllowed, run.retryErrors);
      }
    }
  }

  // A scan gives the table of a derivation from scratch exactly when it confuses no path.
  lemma {:induction false} FromScratchUnlessConfused(a: Analyzer, contract: Contract, run: ScanRun)
    requires Steady(run.visits)
    requires run.reuseAllowed ==> forall p :: p in run.before ==> Genuine(a, contract, p, run.before[p])
    ensures FromScratch(a, contract, RowsAfter(a, contract, run), Found(run.visits))
       <==> forall p :: !Confused(a, contract, run, p)
  {
    ScanIsFaithful(a, contract, run.before, run.visits, run.reuseAllowed, run.retryErrors);
    var rows, found := RowsAfter(a, contract, run), Found(run.visits);
    forall p | p in found ensures rows[p] == Derive(a, contract, p, found[p]) <==> !Confused(a, contract, run, p) {
      RowOfPath(a, contract, run, p);
      hide ScanRows, Found, Derive;
    }
  }

  lemma OneVisit(a: Analyzer, contract: Contract, rows: Table, p: Path, e: Entry, reuse: bool)
    ensures Found([(p, e)]) == map[p := e]
    ensures ScanRows(a, contract, rows, [(p, e)], reuse, false)
         == if Kept(rows, p, e, reuse, false) then rows else rows[p := Derive(a, contract, p, e)]
  {
    var visits := [(p, e)];
    assert visits[..0] == [];
    assert Found(visits[..0]) == map[];
  }

  // The confusion happens: the row of a path that was unreachable at the first scan and is an empty file
  // with mtime zero at the second is kept.
  lemma UnreachableRowIsKept(a: Analyzer, contract: Contract, p: Path, reason: Reason)
    requires Derive(a, contract, p, Unreachable(reason)) != Derive(a, contract, p, Regular(0, 0))
    ensures var visits := [(p, Unreachable(reason))];
            var first := FoundRows(ScanRows(a, contract, map[], visits, false, false), Found(visits));
            var second := [(p, Regular(0, 0))];
            var rows := FoundRows(ScanRows(a, contract, first, second, true, false), Found(second));
            !FromScratch(a, contract, rows, Found(second))
  {
    var visits := [(p, Unreachable(reason))];
    OneVisit(a, contract, map[], p, Unreachable(reason), false);
    var first := FoundRows(ScanRows(a, contract, map[], visits, false, false), Found(visits));
    OneVisit(a, contract, first, p, Regular(0, 0), true);
    assert p in first && Kept(first, p, Regular(0, 0), true, false);
  }

  // What survives a crash.
  class Database {
    const analyzer: Analyzer
    var durable: Db
    ghost var last: ScanRun  // the last scan that was completed

    // A table marked current is what the last complete scan left under the contract it is marked with, and
    // that scan kept only rows of the same contract.
    ghost predicate Valid()
      reads this
    {
      durable.scanState.Current? ==>
        && durable.derivation.Some? && durable.rows == RowsAfter(analyzer, durable.derivation.value, last)
        && (last.reuseAllowed ==>
              forall p :: p in last.before ==> Genuine(analyzer, durable.derivation.value, p, last.before[p]))
    }

    constructor (analyzer: Analyzer)
      ensures Valid() && this.analyzer == analyzer && durable == Db(None, Stale, None, map[])
    {
      this.analyzer, durable, last := analyzer, Db(None, Stale, None, map[]), ScanRun(map[], [], false, false);
    }
  }

  datatype ScanResult =
    | Completed(discovered: nat, processed: nat, reused: nat, valid: nat, failed: nat)
    | Interrupted

  // How many of the visits of a scan derived a row.
  function Derived(
    a: Analyzer, contract: Contract, rows: Table, visits: seq<(Path, Entry)>, reuseAllowed: bool, retryErrors: bool)
    : (n: nat)
    ensures n <= |visits|
  {
    if visits == [] then 0
    else
      var k := |visits| - 1;
      var before := ScanRows(a, contract, rows, visits[..k], reuseAllowed, retryErrors);
      Derived(a, contract, rows, visits[..k], reuseAllowed, retryErrors)
      + if Kept(before, visits[k].0, visits[k].1, reuseAllowed, retryErrors) then 0 else 1
  }

  // After this visit, the last of these, the scan commits.
  ghost predicate Commits(
    a: Analyzer, contract: Contract, rows: Table, visits: seq<(Path, Entry)>, reuseAllowed: bool, retryErrors: bool)
  {
    && visits != [] && visits[|visits| - 1].1 != Unreachable(OutsideRoot)
    && var n := Derived(a, contract, rows, visits, reuseAllowed, retryErrors);
       n > Derived(a, contract, rows, visits[..|visits| - 1], reuseAllowed, retryErrors) && n % COMMIT_INTERVAL == 0
  }

  // The durable rows are those after some of the visits, none after which commits.
  ghost predicate LastCommit(
    a: Analyzer, contract: Contract, durable: Table, rows: Table, visits: seq<(Path, Entry)>, reuseAllowed: bool,
    retryErrors: bool)
  {
    exists c: nat ::
      && c <= |visits| && durable == ScanRows(a, contract, rows, visits[..c], reuseAllowed, retryErrors)
      && forall k :: c < k <= |visits| ==> !Commits(a, contract, rows, visits[..k], reuseAllowed, retryErrors)
  }

  lemma NothingVisited(a: Analyzer, contract: Contract, rows: Table, reuseAllowed: bool, retryErrors: bool)
    ensures LastCommit(a, contract, rows, rows, [], reuseAllowed, retryErrors)
    ensures ScanRows(a, contract, rows, [], reuseAllowed, retryErrors) == rows
    ensures Derived(a, contract, rows, [], reuseAllowed, retryErrors) == 0 && Found([]).Keys == {}
  {
    var none: seq<(Path, Entry)> := [];
    assert none[..0] == none;
  }

  lemma OneMoreVisited(
    a: Analyzer, contract: Contract, durable: Table, rows: Table, visits: seq<(Path, Entry)>, visit: (Path, Entry),
    after: Table, reuseAllowed: bool, retryErrors: bool)
    requires LastCommit(a, contract, durable, rows, visits, reuseAllowed, retryErrors)
    requires after == if Commits(a, contract, rows, visits + [visit], reuseAllowed, retryErrors) then
                        ScanRows(a, contract, rows, visits + [visit], reuseAllowed, retryErrors) else durable
    ensures LastCommit(a, contract, after, rows, visits + [visit], reuseAllowed, retryErrors)
  {
    hide Commits, ScanRows;
    var more := visits + [visit];
    assert more[..|more|] == more;
    if !Commits(a, contract, rows, more, reuseAllowed, retryErrors) {
      var c: nat :| c <= |visits| && durable == ScanRows(a, contract, rows, visits[..c], reuseAllowed, retryErrors)
                    && forall k :: c < k <= |visits| ==> !Commits(a, contract, rows, visits[..k], reuseAllowed, retryErrors);
      assert forall k :: 0 <= k <= |visits| ==> more[..k] == visits[..k];
    }
  }

  lemma VisitUnfolds(
    a: Analyzer, contract: Contract, rows: Table, visits: seq<(Path, Entry)>, k: nat, reuseAllowed: bool, retryErrors: bool)
    requires k < |visits|
    ensures var (p, e) := visits[k];
            var before := ScanRows(a, contract, rows, visits[..k], reuseAllowed, retryErrors);
            var kept, n := Kept(before, p, e, reuseAllowed, retryErrors),
                           Derived(a, contract, rows, visits[..k], reuseAllowed, retryErrors);
            && visits[..k] + [visits[k]] == visits[..k + 1]
            && ScanRows(a, contract, rows, visits[..k + 1], reuseAllowed, retryErrors)
               == (if kept then before else before[p := Derive(a, contract, p, e)])
            && Derived(a, contract, rows, visits[..k + 1], reuseAllowed, retryErrors) == (if kept then n else n + 1)
            && (Commits(a, contract, rows, visits[..k + 1], reuseAllowed, retryErrors)
                <==> !kept && e != Unreachable(OutsideRoot) && (n + 1) % COMMIT_INTERVAL == 0)
            && Found(visits[..k + 1]).Keys == Found(visits[..k]).Keys + {p}
  {
    assert visits[..k + 1][..k] == visits[..k];
  }

  // What can end a scan at any point: a crash of the process, or an exception out of the walk.
  class Fate {
    ghost var blows: nat

    constructor ()
      ensures blows == 0
    {
      blows := 0;
    }

    method Strikes() returns (ends: bool)
      modifies this
      ensures blows == old(blows) + if ends then 1 else 0
    {
      ends := *;
      blows := blows + if ends then 1 else 0;
    }
  }

  // One process's connection to the catalog.
  class CorpusCatalog {
    const db: Database
    const contract: Contract
    var pending: Option<Db>  // the state with this connection's own uncommitted changes, if it has any
    var scanState: ScanState
    var derivationStale: bool

    // A scan that was interrupted without a rollback leaves uncommitted rows, but marked as such.
    ghost predicate Valid()
      reads this, db
    {
      db.Valid() && (pending.Some? ==> pending.value.scanState.InProgress? && db.durable.scanState.InProgress?)
    }

    // What this connection sees.
    function Working(): Db
      reads this`pending, db`durable
    {
      if pending.Some? then pending.value else db.durable
    }

    constructor (db: Database, contract: Contract)
      ensures this.db == db && this.contract == contract && pending == None
    {
      this.db, this.contract, pending, scanState, derivationStale := db, contract, None, Stale, true;
    }

    // Open the catalog under `contract`; a catalog of another root is refused.
    static method Open(db: Database, contract: Contract, root: string) returns (catalog: CorpusCatalog?)
      requires db.Valid()
      modifies db`durable
      ensures catalog == null <==> old(db.durable).root.Some? && old(db.durable).root != Some(root)
      ensures catalog == null ==> db.durable == old(db.durable)
      ensures catalog != null ==>
                && fresh(catalog) && catalog.Valid() && catalog.db == db && catalog.contract == contract
                && catalog.pending == None && db.durable == old(db.durable).(root := Some(root))
                && catalog.scanState == db.durable.scanState
                && (catalog.derivationStale <==> db.durable.derivation != Some(contract) || !db.durable.scanState.Current?)
    {
      if db.durable.root.Some? && db.durable.root != Some(root) {
        return null;
      }
      catalog := new CorpusCatalog(db, contract);
      catalog.pending := Some(db.durable.(root := Some(root)));
      catalog.RefreshDerivationState();
      catalog.Commit();
    }

    method Write(d: Db)
      modifies this`pending
      ensures pending == Some(d)
    {
      pending := Some(d);
    }

    method Commit()
      modifies this`pending, db`durable
      ensures db.durable == old(Working()) && pending == None
    {
      db.durable := Working();
      pending := None;
    }

    method Rollback()
      modifies this`pending
      ensures pending == None
    {
      pending := None;
    }

    method RefreshDerivationState()
      modifies this`scanState, this`derivationStale
      ensures scanState == Working().scanState
      ensures derivationStale <==> Working().derivation != Some(contract) || !Working().scanState.Current?
    {
      scanState := Working().scanState;
      derivationStale := Working().derivation != Some(contract) || !scanState.Current?;
    }

    // Record durably that a scan has begun, before any row changes; rows may be kept only if the table was
    // complete under this very contract.
    method PrepareScan() returns (reuseAllowed: bool)
      requires Valid()
      modifies this`pending, this`scanState, this`derivationStale, db`durable
      ensures Valid() && pending == None && db.durable == old(db.durable).(scanState := InProgress)
      ensures reuseAllowed <==> old(db.durable).scanState.Current? && old(db.durable).derivation == Some(contract)
      ensures scanState == InProgress && derivationStale
    {
      RefreshDerivationState();
      reuseAllowed := !derivationStale;
      Rollback();
      Write(Working().(scanState := InProgress));
      Commit();
      scanState, derivationStale := InProgress, true;
    }

    // Visit one path: keep its row when that is allowed and the stat agrees, else derive it.
    method Visit(p: Path, e: Entry, reuseAllowed: bool, retryErrors: bool) returns (reused: bool)
      modifies this`pending
      ensures reused <==> Kept(old(Working()).rows, p, e, reuseAllowed, retryErrors)
      ensures if reused then pending == old(pending)
              else pending == Some(old(Working()).(rows := old(Working()).rows[p := Derive(db.analyzer, contract, p, e)]))
    {
      if e.Regular? && reuseAllowed && p in Working().rows {
        var row := Working().rows[p];
        if row.size == e.size && row.mtime == e.mtime && !(retryErrors && !row.ok) {
          return true;
        }
      }
      Write(Working().(rows := Working().rows[p := Derive(db.analyzer, contract, p, e)]));
      return false;
    }

    // Scan the corpus: `visits` lists what the walk finds, and the scan may end at any point, with
    // the process or, leaving its transaction open, with an exception.
    method Scan(visits: seq<(Path, Entry)>, retryErrors: bool, fate: Fate) returns (result: ScanResult)
      requires Valid()
      modifies this, db, fate
      ensures Valid()
      ensures result.Interrupted? <==> fate.blows > old(fate.blows)
      ensures result.Interrupted? ==> db.durable == old(db.durable) || db.durable.scanState.InProgress?
      ensures result.Completed? ==>
                var reuseAllowed := old(db.durable).scanState.Current? && old(db.durable).derivation == Some(contract);
                && pending == None && db.durable.scanState.Current? && db.durable.derivation == Some(contract)
                && scanState.Current? && !derivationStale
                && db.last == ScanRun(old(db.durable).rows, visits, reuseAllowed, retryErrors)
                && db.durable.rows == RowsAfter(db.analyzer, contract, db.last)
                && result.discovered == |visits| == result.processed + result.reused
                && result.processed
                   == Derived(db.analyzer, contract, old(db.durable).rows, visits, reuseAllowed, retryErrors)
                && result.valid == |set p | p in db.durable.rows && db.durable.rows[p].ok|
                && result.failed == |set p | p in db.durable.rows && !db.durable.rows[p].ok|
      ensures result.Completed? && Steady(visits) ==>
                (FromScratch(db.analyzer, contract, db.durable.rows, Found(visits))
                 <==> forall p :: !Confused(db.analyzer, contract, db.last, p))
    {
      hide Confused, FromScratch, ScanRows, Genuine;
      var ends := fate.Strikes();
      if ends {
        return Interrupted;
      }
      StartsFromGenuineRows();
      var reuseAllowed := PrepareScan();
      ghost var run := ScanRun(old(db.durable).rows, visits, reuseAllowed, retryErrors);
      var processed, reused, discovered := VisitAll(visits, reuseAllowed, retryErrors, fate);
      ends := fate.Strikes();
      if processed + reused < |visits| || ends {
        var rollsBack: bool := *;
        if rollsBack {
          Rollback();
        }
        return Interrupted;
      }
      assert visits[..|visits|] == visits;
      Finish(discovered, run);
      var rows := db.durable.rows;
      var valid, failed := set p | p in rows && rows[p].ok, set p | p in rows && !rows[p].ok;
      return Completed(|visits|, processed, reused, |valid|, |failed|);
    }

    // Visit the paths of a walk, committing now and then; the walk may break off.
    method VisitAll(visits: seq<(Path, Entry)>, reuseAllowed: bool, retryErrors: bool, fate: Fate)
      returns (processed: nat, reused: nat, discovered: set<Path>)
      requires Valid() && pending == None && db.durable.scanState.InProgress?
      modifies this`pending, db`durable, fate
      ensures old(fate.blows) <= fate.blows
      ensures processed + reused < |visits| <==> fate.blows > old(fate.blows)
      ensures Valid() && db.durable.scanState.InProgress? && processed + reused <= |visits|
      ensures discovered == Found(visits[..processed + reused]).Keys
      ensures processed == Derived(db.analyzer, contract, old(db.durable).rows, visits[..processed + reused],
                                   reuseAllowed, retryErrors)
      // What is durable are the rows at the last commit.
      ensures LastCommit(db.analyzer, contract, db.durable.rows, old(db.durable).rows, visits[..processed + reused],
                         reuseAllowed, retryErrors)
      ensures Working().rows ==
              ScanRows(db.analyzer, contract, old(db.durable).rows, visits[..processed + reused], reuseAllowed, retryErrors)
    {
      hide ScanRows, Derived, LastCommit, Found, Genuine, RowsAfter;
      discovered, processed, reused := {}, 0, 0;
      ghost var rows := db.durable.rows;
      NothingVisited(db.analyzer, contract, rows, reuseAllowed, retryErrors);
      assert visits[..0] == [];
      for k := 0 to |visits|
        invariant Valid() && db.durable.scanState.InProgress?
        invariant discovered == Found(visits[..k]).Keys && processed + reused == k && fate.blows == old(fate.blows)
        invariant Visited(rows, visits[..k], reuseAllowed, retryErrors, processed)
      {
        var ends := fate.Strikes();
        if ends {
          return;
        }
        VisitUnfolds(db.analyzer, contract, rows, visits, k, reuseAllowed, retryErrors);
        discovered := discovered + {visits[k].0};
        var kept := VisitNext(rows, visits, k, reuseAllowed, retryErrors, processed);
        if kept {
          reused := reused + 1;
        } else {
          processed := processed + 1;
        }
      }
      assert visits[..|visits|] == visits;
    }

    // After these visits: the rows, how many of them were derived, and what is durable.
    ghost predicate Visited(
      rows: Table, visits: seq<(Path, Entry)>, reuseAllowed: bool, retryErrors: bool, processed: nat)
      reads this`pending, db`durable
    {
      && Working().rows == ScanRows(db.analyzer, contract, rows, visits, reuseAllowed, retryErrors)
      && processed == Derived(db.analyzer, contract, rows, visits, reuseAllowed, retryErrors)
      && LastCommit(db.analyzer, contract, db.durable.rows, rows, visits, reuseAllowed, retryErrors)
    }

    // One step of the walk, with its commit.
    method VisitNext(ghost rows: Table, visits: seq<(Path, Entry)>, k: nat, reuseAllowed: bool, retryErrors: bool,
                     processed: nat) returns (kept: bool)
      requires Valid() && db.durable.scanState.InProgress?
      requires k < |visits| && Visited(rows, visits[..k], reuseAllowed, retryErrors, processed)
      modifies this`pending, db`durable
      ensures Valid() && db.durable.scanState.InProgress?
      ensures Visited(rows, visits[..k + 1], reuseAllowed, retryErrors, processed + if kept then 0 else 1)
    {
      hide ScanRows, Derived, LastCommit, Commits, Kept, Derive, Genuine, RowsAfter;
      VisitUnfolds(db.analyzer, contract, rows, visits, k, reuseAllowed, retryErrors);
      ghost var durable := db.durable.rows;
      var (p, e) := visits[k];
      kept := Visit(p, e, reuseAllowed, retryErrors);
      if !kept && e != Unreachable(OutsideRoot) && (processed + 1) % COMMIT_INTERVAL == 0 {
        Commit();
      }
      OneMoreVisited(
        db.analyzer, contract, durable, rows, visits[..k], visits[k], db.durable.rows, reuseAllowed, retryErrors);
    }

    // Drop the rows of paths that were not found, and mark the table complete, in one transaction.
    method Finish(discovered: set<Path>, ghost run: ScanRun)
      requires Valid() && discovered == Found(run.visits).Keys
      requires Working().rows ==
               ScanRows(db.analyzer, contract, run.before, run.visits, run.reuseAllowed, run.retryErrors)
      requires run.reuseAllowed ==> forall p :: p in run.before ==> Genuine(db.analyzer, contract, p, run.before[p])
      modifies this, db`durable, db`last
      ensures Valid() && pending == None && db.last == run && scanState.Current? && !derivationStale
      ensures db.durable.scanState.Current? && db.durable.derivation == Some(contract)
      ensures db.durable.rows == RowsAfter(db.analyzer, contract, run)
      ensures Steady(run.visits) ==>
                (FromScratch(db.analyzer, contract, db.durable.rows, Found(run.visits))
                 <==> forall p :: !Confused(db.analyzer, contract, run, p))
    {
      hide Confused, FromScratch, ScanRows, Found;
      var rows := Working().rows;
      var found := map p | p in rows && p in discovered :: rows[p];
      assert found == FoundRows(rows, Found(run.visits));
      Write(Working().(rows := found, derivation := Some(contract), scanState := Current));
      Commit();
      db.last := run;
      if Steady(run.visits) {
        FromScratchUnlessConfused(db.analyzer, contract, run);
      }
      scanState, derivationStale := Current, false;
    }

    // Rows that a scan may keep were derived under the contract of this connection.
    lemma StartsFromGenuineRows()
      requires db.Valid()
      ensures db.durable.scanState.Current? && db.durable.derivation == Some(contract) ==>
                forall p :: p in db.durable.rows ==> Genuine(db.analyzer, contract, p, db.durable.rows[p])
    {
      if db.durable.scanState.Current? && db.durable.derivation == Some(contract) {
        var run := db.last;
        ScanIsFaithful(db.analyzer, contract, run.before, run.visits, run.reuseAllowed, run.retryErrors);
        forall p | p in db.durable.rows ensures Genuine(db.analyzer, contract, p, db.durable.rows[p]) {
          assert Right(db.analyzer, contract, p, db.durable.rows[p], Found(run.visits)[p]);
        }
      }
    }

    // The table, or an error when a scan is required.
    method Rows() returns (rows: Option<Table>)
      requires Valid()
      modifies this`scanState, this`derivationStale
      ensures rows.Some? <==> db.durable.scanState.Current? && db.durable.derivation == Some(contract)
      ensures rows.Some? ==>
                && rows.value == db.durable.rows
                && Faithful(db.analyzer, contract, rows.value, Found(db.last.visits))
                && (Steady(db.last.visits) ==>
                      (FromScratch(db.analyzer, contract, rows.value, Found(db.last.visits))
                       <==> forall p :: !Confused(db.analyzer, contract, db.last, p)))
    {
      RefreshDerivationState();
      if scanState != Current || derivationStale {
        return None;
      }
      ghost var run := db.last;
      ScanIsFaithful(db.analyzer, contract, run.before, run.visits, run.reuseAllowed, run.retryErrors);
      if Steady(run.visits) {
        FromScratchUnlessConfused(db.analyzer, contract, run);
      }
      return Some(Working().rows);
    }
  }
}
