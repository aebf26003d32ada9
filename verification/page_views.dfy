/** The page-view data shared by both homework-1 page-view scripts
    (hw1/analyze.py and hw1/analyze_nyt.py): rows, tables, the required
    labels, the per-column validity tests of the cleaning chain, the loader
    loop and the drop report. */
module PageViews {
  import opened Wrappers
  import opened Seqs

  /** The columns a daily file must have to be kept. */
  const LABELS: set<string> := {"Age", "Gender", "Impressions", "Clicks", "Signed_In"}

  /** One page-view record. A `None` cell is a NaN in the table; `others`
      holds the cells of the table's remaining columns, which matter to the
      cleaning only through being present or missing. */
  datatype Row = Row(
    age: Option<int>,
    gender: Option<int>,
    impressions: Option<int>,
    clicks: Option<int>,
    signedIn: Option<int>,
    others: seq<Option<string>>)

  /** A loaded daily file: its column labels and its rows, in file order. */
  datatype Table = Table(columns: set<string>, rows: seq<Row>)

  /** What reading one file gives: a parse failure, or a table. */
  datatype Source = Unreadable | Parsed(table: Table)

  /** The division error Python raises when the drop report divides by zero rows. */
  datatype ArithError = ZeroDivisionError

  // ---------------------------------------------------------------------
  // Per-column tests of the cleaning chain. A comparison with NaN is false
  // in pandas, so each test fails on a missing cell.

  /** `dropna()`: no cell of the row is missing. */
  predicate NoMissing(r: Row) {
    r.age.Some? && r.gender.Some? && r.impressions.Some? && r.clicks.Some? && r.signedIn.Some? &&
    forall i :: 0 <= i < |r.others| ==> r.others[i].Some?
  }

  predicate AtLeast(c: Option<int>, lo: int) {
    c.Some? && c.value >= lo
  }

  /** `Series.between(lo, hi, inclusive="both")`. */
  predicate Between(c: Option<int>, lo: int, hi: int) {
    c.Some? && lo <= c.value <= hi
  }

  predicate GenderInRange(r: Row) { Between(r.gender, 0, 1) }
  predicate ImpressionsNonNegative(r: Row) { AtLeast(r.impressions, 0) }
  predicate ClicksNonNegative(r: Row) { AtLeast(r.clicks, 0) }
  predicate SignedInRange(r: Row) { Between(r.signedIn, 0, 1) }

  // ---------------------------------------------------------------------
  // Loading

  /** A source the loader keeps: it parsed, and its labels include `LABELS`. */
  predicate Accepted(s: Source) {
    s.Parsed? && LABELS <= s.table.columns
  }

  /** The tables the loader keeps, in file order. */
  function Loaded(files: seq<Source>): (data: seq<Table>)
    ensures |data| <= |files|
    ensures forall t :: t in data ==> LABELS <= t.columns
  {
    if files == [] then []
    else
      var last := files[|files| - 1];
      Loaded(files[..|files| - 1]) + (if Accepted(last) then [last.table] else [])
  }

  function AsSource(t: Table): Source { Parsed(t) }

  /** The loader keeps exactly the accepted tables. */
  lemma {:induction false} LoadedExactly(files: seq<Source>, t: Table)
    ensures t in Loaded(files) <==> Parsed(t) in files && LABELS <= t.columns
  {
    if files != [] {
      var init := files[..|files| - 1];
      LoadedExactly(init, t);
      assert files == init + [files[|files| - 1]];
    }
  }

  /** The kept tables are in file order: put back as sources, they form a
      subsequence of the files. */
  lemma {:induction false} LoadedInFileOrder(files: seq<Source>)
    ensures IsSubsequence(MapSeq(AsSource, Loaded(files)), files)
  {
    var accepted := Filter(Accepted, files);
    LoadedIsAccepted(files);
    FilterIsSubsequence(Accepted, files);
    assert MapSeq(AsSource, Loaded(files)) == accepted;
  }

  /** Seen as sources, the kept tables are the accepted sources, in order. */
  lemma {:induction false} LoadedIsAccepted(files: seq<Source>)
    ensures MapSeq(AsSource, Loaded(files)) == Filter(Accepted, files)
  {
    if files != [] {
      var init, last := files[..|files| - 1], files[|files| - 1];
      LoadedIsAccepted(init);
      FilterSnoc(Accepted, init, last);
      assert files == init + [last];
      MapSeqSnoc(AsSource, Loaded(init), if Accepted(last) then [last.table] else []);
    }
  }

  lemma {:induction false} FilterSnoc<T>(p: T -> bool, s: seq<T>, x: T)
    ensures Filter(p, s + [x]) == Filter(p, s) + (if p(x) then [x] else [])
  {
    if s == [] {
      assert [] + [x] == [x];
      assert [x][1..] == [];
    } else {
      assert (s + [x])[1..] == s[1..] + [x];
      FilterSnoc(p, s[1..], x);
    }
  }

  lemma {:induction false} MapSeqSnoc<T, U>(f: T -> U, s: seq<T>, tail: seq<T>)
    ensures MapSeq(f, s + tail) == MapSeq(f, s) + MapSeq(f, tail)
  {
    if s == [] {
      assert [] + tail == tail;
    } else {
      assert (s + tail)[1..] == s[1..] + tail;
      MapSeqSnoc(f, s[1..], tail);
    }
  }

  /** The loading loop: read each file in enumeration order, keep it if
      every required label is among its columns, otherwise report it as
      skipped and go on. */
  method LoadTables(files: seq<Source>) returns (data: seq<Table>, skipped: seq<nat>)
    ensures data == Loaded(files)
    ensures |data| + |skipped| == |files|
    ensures forall j :: j in skipped <==> 0 <= j < |files| && !Accepted(files[j])
  {
    data, skipped := [], [];
    var i := 0;
    while i < |files|
      invariant 0 <= i <= |files|
      invariant data == Loaded(files[..i])
      invariant |data| + |skipped| == i
      invariant forall j :: j in skipped <==> 0 <= j < i && !Accepted(files[j])
    {
      assert files[..i + 1][..i] == files[..i];
      if Accepted(files[i]) {
        data := data + [files[i].table];
      } else {
        skipped := skipped + [i];
      }
      i := i + 1;
    }
    assert files[..i] == files;
  }

  // ---------------------------------------------------------------------
  // Counters and the drop report

  /** The number of rows over a list of tables (`sum(len(frame))`). */
  function RowCount(data: seq<Table>): (n: nat)
    ensures data == [] ==> n == 0
  {
    if data == [] then 0
    else RowCount(data[..|data| - 1]) + |data[|data| - 1].rows|
  }

  /** `total` is additive: counting two lists of tables one after the other
      is counting their concatenation. */
  lemma {:induction false} RowCountAppend(a: seq<Table>, b: seq<Table>)
    ensures RowCount(a + b) == RowCount(a) + RowCount(b)
  {
    if b == [] {
      assert a + b == a;
    } else {
      var init := b[..|b| - 1];
      RowCountAppend(a, init);
      assert (a + b)[..|a + b| - 1] == a + init;
    }
  }

  /** One turn of a pruning loop: the next table adds its rows to the count
      seen, and its pruned rows to the count kept. */
  lemma PruneStep(prune: Table -> Table, data: seq<Table>, i: nat)
    requires i < |data|
    ensures RowCount(data[..i + 1]) == RowCount(data[..i]) + |data[i].rows|
    ensures MapSeq(prune, data[..i + 1]) == MapSeq(prune, data[..i]) + [prune(data[i])]
    ensures RowCount(MapSeq(prune, data[..i + 1])) == RowCount(MapSeq(prune, data[..i])) + |prune(data[i]).rows|
  {
    assert data[..i + 1] == data[..i] + [data[i]];
    RowCountAppend(data[..i], [data[i]]);
    MapSeqSnoc(prune, data[..i], [data[i]]);
    RowCountAppend(MapSeq(prune, data[..i]), [prune(data[i])]);
  }

  /** `dropped / total * 100.0`, which raises a division error when no row
      was seen. */
  function DropPercentage(dropped: int, total: int): (r: Result<real, ArithError>)
    ensures r.Err? <==> total == 0
    ensures r.Ok? ==> r.value * total as real == dropped as real * 100.0
    ensures r.Ok? && 0 <= dropped <= total ==> 0.0 <= r.value <= 100.0
  {
    if total == 0 then Err(ZeroDivisionError)
    else Ok(dropped as real / total as real * 100.0)
  }
}
