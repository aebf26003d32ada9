/** The earlier page-view script, hw1/analyze.py: load the daily tables,
    then prune each with a chain of row filters that rejects a zero age,
    counting the rows seen and dropped. The pruned tables are discarded. */
module Analyze {
  import opened Wrappers
  import opened Seqs
  import opened PageViews

  predicate AgePositive(r: Row) { r.age.Some? && r.age.value > 0 }

  /** Every test of the chain at once: a row survives exactly when this holds. */
  predicate ValidStrict(r: Row) {
    NoMissing(r) && AgePositive(r) && GenderInRange(r) &&
    ImpressionsNonNegative(r) && ClicksNonNegative(r) && SignedInRange(r)
  }

  /** The filter chain, one mask at a time, in the script's order. */
  function CleanStrict(rows: seq<Row>): (cleaned: seq<Row>)
    ensures |cleaned| <= |rows|
  {
    var kept := Filter(NoMissing, rows);
    var kept := Filter(AgePositive, kept);
    var kept := Filter(GenderInRange, kept);
    var kept := Filter(ImpressionsNonNegative, kept);
    var kept := Filter(ClicksNonNegative, kept);
    Filter(SignedInRange, kept)
  }

  /** One frame after the chain: same columns, the rows that pass every test. */
  function CleanStrictTable(t: Table): (r: Table)
    ensures r.columns == t.columns && r.rows == Filter(ValidStrict, t.rows)
  {
    CleanStrictIsFilter(t.rows);
    Table(t.columns, CleanStrict(t.rows))
  }

  /** The chain keeps exactly the rows that pass every test, in order. */
  lemma {:induction false} CleanStrictIsFilter(rows: seq<Row>)
    ensures CleanStrict(rows) == Filter(ValidStrict, rows)
  {
    var p1 := (r: Row) => NoMissing(r) && AgePositive(r);
    var p2 := (r: Row) => p1(r) && GenderInRange(r);
    var p3 := (r: Row) => p2(r) && ImpressionsNonNegative(r);
    var p4 := (r: Row) => p3(r) && ClicksNonNegative(r);
    FilterFilter(NoMissing, AgePositive, p1, rows);
    FilterFilter(p1, GenderInRange, p2, rows);
    FilterFilter(p2, ImpressionsNonNegative, p3, rows);
    FilterFilter(p3, ClicksNonNegative, p4, rows);
    FilterFilter(p4, SignedInRange, ValidStrict, rows);
  }

  /** Every surviving row has no missing cell, a positive age, a gender and
      a signed-in flag in [0, 1], and non-negative impressions and clicks;
      every input row with those properties survives; survivors keep their
      input order. */
  lemma CleanStrictSurvivors(rows: seq<Row>)
    ensures forall r :: r in CleanStrict(rows) <==> r in rows && ValidStrict(r)
    ensures forall r :: r in CleanStrict(rows) ==>
      NoMissing(r) && r.age.value > 0 && 0 <= r.gender.value <= 1 && r.impressions.value >= 0 &&
      r.clicks.value >= 0 && 0 <= r.signedIn.value <= 1
    ensures IsSubsequence(CleanStrict(rows), rows)
  {
    CleanStrictIsFilter(rows);
    FilterMembers(ValidStrict, rows);
    FilterIsSubsequence(ValidStrict, rows);
  }

  /** Pruning a pruned table drops nothing more. */
  lemma CleanStrictIdempotent(rows: seq<Row>)
    ensures CleanStrict(CleanStrict(rows)) == CleanStrict(rows)
  {
    CleanStrictIsFilter(rows);
    CleanStrictIsFilter(CleanStrict(rows));
    FilterFilter(ValidStrict, ValidStrict, ValidStrict, rows);
  }

  /** The pruning loop. Each table is pruned and counted; `frame = new`
      only rebinds the loop variable, so the pruned tables are lost and the
      caller's list of tables is untouched. */
  method PruneStrict(data: seq<Table>) returns (total: int, dropped: int)
    ensures total == RowCount(data)
    ensures dropped + RowCount(MapSeq(CleanStrictTable, data)) == total
    ensures 0 <= dropped <= total
  {
    dropped, total := 0, 0;
    var i := 0;
    while i < |data|
      invariant 0 <= i <= |data|
      invariant total == RowCount(data[..i])
      invariant dropped + RowCount(MapSeq(CleanStrictTable, data[..i])) == total
      invariant 0 <= dropped
    {
      var frame := data[i];
      var pruned := CleanStrictTable(frame);
      total := total + |frame.rows|;
      dropped := dropped + (|frame.rows| - |pruned.rows|);
      frame := pruned;
      PruneStep(CleanStrictTable, data, i);
      i := i + 1;
    }
    assert data[..i] == data;
  }

  /** The whole script up to its report: load, prune, and the percentage of
      rows dropped, which fails with a division error when no row was
      loaded. The tables the script holds afterwards are the loaded ones. */
  method RunAnalyze(files: seq<Source>) returns (data: seq<Table>, total: int, dropped: int, percent: Result<real, ArithError>)
    ensures data == Loaded(files)
    ensures total == RowCount(Loaded(files))
    ensures dropped + RowCount(MapSeq(CleanStrictTable, Loaded(files))) == total
    ensures percent == DropPercentage(dropped, total)
    ensures percent.Err? <==> total == 0
    ensures percent.Ok? ==> 0.0 <= percent.value <= 100.0
  {
    var skipped;
    data, skipped := LoadTables(files);
    total, dropped := PruneStrict(data);
    percent := DropPercentage(dropped, total);
  }
}
