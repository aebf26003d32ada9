/** The later page-view script, hw1/analyze_nyt.py: the same loader, a
    pruning chain that keeps a zero age (read as "not signed in") and
    recodes that row's gender as unknown, and the two derived columns
    `Age_Group` and `CTR` that `bin_by_age(df)` adds to each pruned frame. */
module AnalyzeNyt {
  import opened Wrappers
  import opened Seqs
  import opened PageViews
  import Analyze

  // ---------------------------------------------------------------------
  // Age groups

  /** The age-group names, in the order the plots use. */
  const GROUPS: seq<string> := ["<18", "18-24", "25-34", "35-44", "45-54", "55-64", "65+", "???"]

  /** The lower ages of the groups after "<18", in increasing order. */
  const BOUNDS: seq<int> := [18, 25, 35, 45, 55, 65]

  /** The inner `bin_by_age(age)`: 0 is the unknown-age sentinel, every other
      age falls into one of seven bands. */
  function AgeGroup(age: int): (g: string)
    ensures g in GROUPS
  {
    if age == 0 then "???"
    else if age < 18 then "<18"
    else if age < 25 then "18-24"
    else if age < 35 then "25-34"
    else if age < 45 then "35-44"
    else if age < 55 then "45-54"
    else if age < 65 then "55-64"
    else "65+"
  }

  /** `bin_by_age` applied to a cell: a NaN age fails every comparison of
      the chain and falls through to "65+". */
  function AgeGroupCell(age: Option<int>): (g: string)
    ensures g in GROUPS
    ensures age.None? ==> g == "65+"
  {
    match age
    case None => "65+"
    case Some(a) => AgeGroup(a)
  }

  /** How many of the increasing bounds `bs` are at most `age`. */
  function CountAtMost(bs: seq<int>, age: int): nat {
    if bs == [] then 0
    else (if bs[0] <= age then 1 else 0) + CountAtMost(bs[1..], age)
  }

  lemma {:induction false} CountAtMostMonotone(bs: seq<int>, a: int, b: int)
    requires a <= b
    ensures CountAtMost(bs, a) <= CountAtMost(bs, b)
  {
    if bs != [] {
      CountAtMostMonotone(bs[1..], a, b);
    }
  }

  /** A non-zero age lands in the group whose position in `GROUPS` is the
      number of bounds it has reached; age 0 lands in the last group. */
  lemma AgeGroupByBounds(age: int)
    ensures age == 0 ==> AgeGroup(age) == GROUPS[7]
    ensures age != 0 ==> CountAtMost(BOUNDS, age) <= 6 && AgeGroup(age) == GROUPS[CountAtMost(BOUNDS, age)]
  {
    var n := CountAtMost(BOUNDS, age);
    assert CountAtMost(BOUNDS[6..], age) == 0;
    assert CountAtMost(BOUNDS[5..], age) == if age >= 65 then 1 else 0;
    assert CountAtMost(BOUNDS[4..], age) == (if age >= 55 then 1 else 0) + CountAtMost(BOUNDS[5..], age);
    assert CountAtMost(BOUNDS[3..], age) == (if age >= 45 then 1 else 0) + CountAtMost(BOUNDS[4..], age);
    assert CountAtMost(BOUNDS[2..], age) == (if age >= 35 then 1 else 0) + CountAtMost(BOUNDS[3..], age);
    assert CountAtMost(BOUNDS[1..], age) == (if age >= 25 then 1 else 0) + CountAtMost(BOUNDS[2..], age);
    assert n == (if age >= 18 then 1 else 0) + CountAtMost(BOUNDS[1..], age);
  }

  lemma GroupsDistinct()
    ensures forall i, j :: 0 <= i < j < |GROUPS| ==> GROUPS[i] != GROUPS[j]
  {
  }

  /** Among positive ages, the groups follow the order of `GROUPS`: an older
      user never lands in an earlier group. */
  lemma AgeGroupMonotone(a: int, b: int)
    requires 1 <= a <= b
    ensures forall i, j ::
      (0 <= i < |GROUPS| && 0 <= j < |GROUPS| && GROUPS[i] == AgeGroup(a) && GROUPS[j] == AgeGroup(b)) ==> i <= j
  {
    AgeGroupByBounds(a);
    AgeGroupByBounds(b);
    CountAtMostMonotone(BOUNDS, a, b);
    GroupsDistinct();
  }

  /** The edges of the bands. */
  lemma AgeGroupBoundaries()
    ensures AgeGroup(0) == "???" && AgeGroup(17) == "<18"
    ensures AgeGroup(18) == "18-24" && AgeGroup(24) == "18-24" && AgeGroup(25) == "25-34"
    ensures AgeGroup(64) == "55-64"
    ensures forall age :: age >= 65 ==> AgeGroup(age) == "65+"
    ensures forall age :: age < 0 ==> AgeGroup(age) == "<18"
  {
  }

  // ---------------------------------------------------------------------
  // Click-through rate

  /** The CTR lambda on two cells: 0 when impressions are 0, otherwise
      clicks over impressions. `None` is NaN: a NaN impression count is not
      0, and dividing by or into NaN gives NaN. */
  function Ctr(clicks: Option<int>, impressions: Option<int>): (r: Option<real>)
    ensures impressions == Some(0) ==> r == Some(0.0)
    ensures r.Some? <==> impressions == Some(0) || (clicks.Some? && impressions.Some?)
    ensures r.Some? && impressions != Some(0) ==>
      r.value * impressions.value as real == clicks.value as real
    ensures AtLeast(clicks, 0) && AtLeast(impressions, 0) ==> r.Some? && r.value >= 0.0
  {
    if impressions == Some(0) then Some(0.0)
    else if clicks.Some? && impressions.Some? then Some(clicks.value as real / impressions.value as real)
    else None
  }

  /** Nothing keeps clicks at or below impressions, so a CTR can exceed 1. */
  lemma CtrNotBoundedByOne()
    ensures Ctr(Some(0), Some(0)) == Some(0.0)
    ensures Ctr(Some(5), Some(10)) == Some(0.5)
    ensures Ctr(Some(3), Some(2)) == Some(1.5)
  {
  }

  // ---------------------------------------------------------------------
  // Pruning

  predicate AgeNonNegative(r: Row) { AtLeast(r.age, 0) }

  /** The gender rewrite: a zero age means "not signed in", so the gender is
      set to -1, unknown. */
  function RecodeGender(r: Row): (r': Row)
    ensures r'.age == r.age && r'.impressions == r.impressions && r'.clicks == r.clicks
    ensures r'.signedIn == r.signedIn && r'.others == r.others
    ensures r'.gender == if r.age == Some(0) then Some(-1) else r.gender
  {
    if r.age == Some(0) then r.(gender := Some(-1)) else r
  }

  /** Every test of the chain, read on the row as it was loaded. */
  predicate ValidNyt(r: Row) {
    NoMissing(r) && AgeNonNegative(r) && GenderInRange(r) &&
    ImpressionsNonNegative(r) && ClicksNonNegative(r) && SignedInRange(r)
  }

  /** The pruning chain, one step at a time, in the script's order; the
      gender rewrite sits between the gender test and the impressions test. */
  function CleanNyt(rows: seq<Row>): (cleaned: seq<Row>)
    ensures |cleaned| <= |rows|
  {
    var kept := Filter(NoMissing, rows);
    var kept := Filter(AgeNonNegative, kept);
    var kept := Filter(GenderInRange, kept);
    var kept := MapSeq(RecodeGender, kept);
    var kept := Filter(ImpressionsNonNegative, kept);
    var kept := Filter(ClicksNonNegative, kept);
    Filter(SignedInRange, kept)
  }

  /** The chain keeps exactly the rows that pass every test, in order, and
      recodes their gender. */
  lemma {:induction false} CleanNytIsRecodedFilter(rows: seq<Row>)
    ensures CleanNyt(rows) == MapSeq(RecodeGender, Filter(ValidNyt, rows))
    ensures IsSubsequence(Filter(ValidNyt, rows), rows)
  {
    FilterIsSubsequence(ValidNyt, rows);
    var early := (r: Row) => NoMissing(r) && AgeNonNegative(r);
    var early' := (r: Row) => early(r) && GenderInRange(r);
    FilterFilter(NoMissing, AgeNonNegative, early, rows);
    FilterFilter(early, GenderInRange, early', rows);
    var kept := Filter(early', rows);
    var late := (r: Row) => ImpressionsNonNegative(r) && ClicksNonNegative(r);
    var late' := (r: Row) => late(r) && SignedInRange(r);
    FilterMapSeq(ImpressionsNonNegative, RecodeGender, ImpressionsNonNegative, kept);
    FilterMapSeq(ClicksNonNegative, RecodeGender, ClicksNonNegative, Filter(ImpressionsNonNegative, kept));
    FilterMapSeq(SignedInRange, RecodeGender, SignedInRange,
      Filter(ClicksNonNegative, Filter(ImpressionsNonNegative, kept)));
    FilterFilter(ImpressionsNonNegative, ClicksNonNegative, late, kept);
    FilterFilter(late, SignedInRange, late', kept);
    FilterFilter(early', late', ValidNyt, rows);
  }

  /** The surviving rows are exactly the valid input rows, gender recoded. */
  lemma CleanNytRows(rows: seq<Row>)
    ensures forall r :: r in CleanNyt(rows) ==> exists o :: o in rows && ValidNyt(o) && r == RecodeGender(o)
    ensures forall o :: o in rows && ValidNyt(o) ==> RecodeGender(o) in CleanNyt(rows)
  {
    CleanNytIsRecodedFilter(rows);
    FilterMembers(ValidNyt, rows);
    var kept := Filter(ValidNyt, rows);
    forall r | r in CleanNyt(rows)
      ensures exists o :: o in rows && ValidNyt(o) && r == RecodeGender(o)
    {
      var i :| 0 <= i < |kept| && MapSeq(RecodeGender, kept)[i] == r;
      assert kept[i] in kept;
    }
    forall o | o in rows && ValidNyt(o)
      ensures RecodeGender(o) in CleanNyt(rows)
    {
      var i :| 0 <= i < |kept| && kept[i] == o;
      assert MapSeq(RecodeGender, kept)[i] == RecodeGender(o);
    }
  }

  /** Every surviving row has no missing cell, a non-negative age,
      non-negative impressions and clicks and a signed-in flag in [0, 1]; its
      gender is -1 exactly when its age is 0 and otherwise 0 or 1. */
  lemma CleanNytSurvivors(rows: seq<Row>)
    ensures forall r :: r in CleanNyt(rows) ==>
      NoMissing(r) && r.age.value >= 0 && r.impressions.value >= 0 && r.clicks.value >= 0 &&
      0 <= r.signedIn.value <= 1 && -1 <= r.gender.value <= 1 &&
      (r.gender.value == -1 <==> r.age.value == 0)
  {
    CleanNytRows(rows);
    forall r | r in CleanNyt(rows)
      ensures NoMissing(r) && r.age.value >= 0 && r.impressions.value >= 0 && r.clicks.value >= 0 &&
        0 <= r.signedIn.value <= 1 && -1 <= r.gender.value <= 1 &&
        (r.gender.value == -1 <==> r.age.value == 0)
    {
      var o :| o in rows && ValidNyt(o) && r == RecodeGender(o);
    }
  }

  /** Pruning a pruned table again is not a no-op: each zero-age row now has
      gender -1 and fails the gender test, so the second pass leaves exactly
      what the earlier script's strict chain keeps of the original rows. */
  lemma CleanNytTwiceIsStrict(rows: seq<Row>)
    ensures CleanNyt(CleanNyt(rows)) == Analyze.CleanStrict(rows)
  {
    var kept := Filter(ValidNyt, rows);
    CleanNytIsRecodedFilter(rows);
    CleanNytIsRecodedFilter(MapSeq(RecodeGender, kept));
    FilterMapSeq(ValidNyt, RecodeGender, ValidAfterRecode, kept);
    forall r ensures Analyze.ValidStrict(r) == (ValidNyt(r) && ValidAfterRecode(r)) {
      StrictIsValidTwice(r);
    }
    FilterFilter(ValidNyt, ValidAfterRecode, Analyze.ValidStrict, rows);
    var strict := Filter(Analyze.ValidStrict, rows);
    FilterMembers(Analyze.ValidStrict, rows);
    MapSeqIdentity(RecodeGender, strict);
    Analyze.CleanStrictIsFilter(rows);
  }

  /** Still valid after the gender rewrite. */
  predicate ValidAfterRecode(r: Row) { ValidNyt(RecodeGender(r)) }

  lemma StrictIsValidTwice(r: Row)
    ensures Analyze.ValidStrict(r) == (ValidNyt(r) && ValidAfterRecode(r))
  {
  }

  /** A concrete zero-age row survives one pass and not a second. */
  lemma CleanNytNotIdempotent()
    ensures var rows := [Row(Some(0), Some(1), Some(3), Some(1), Some(0), [])];
      CleanNyt(rows) == [Row(Some(0), Some(-1), Some(3), Some(1), Some(0), [])] &&
      CleanNyt(CleanNyt(rows)) == []
  {
    var rows := [Row(Some(0), Some(1), Some(3), Some(1), Some(0), [])];
    CleanNytIsRecodedFilter(rows);
    CleanNytTwiceIsStrict(rows);
    Analyze.CleanStrictIsFilter(rows);
    assert Filter(ValidNyt, rows) == rows;
    assert Filter(Analyze.ValidStrict, rows) == [];
  }

  /** Every row the chain keeps has a defined, non-negative CTR and a group
      that is "???" exactly when its age is 0. */
  lemma CleanNytDerived(rows: seq<Row>)
    ensures forall r :: r in CleanNyt(rows) ==>
      Ctr(r.clicks, r.impressions).Some? && Ctr(r.clicks, r.impressions).value >= 0.0 &&
      (AgeGroupCell(r.age) == "???" <==> r.age == Some(0))
  {
    CleanNytSurvivors(rows);
  }

  // ---------------------------------------------------------------------
  // Frames

  /** A pruned frame. `bin_by_age(df)` adds the `Age_Group` and `CTR`
      columns to it in place; until then those two sequences are empty. */
  class Frame {
    var columns: set<string>
    var rows: seq<Row>
    var ageGroup: seq<string>
    var ctr: seq<Option<real>>

    constructor (columns: set<string>, rows: seq<Row>)
      ensures this.columns == columns && this.rows == rows
      ensures ageGroup == [] && ctr == []
    {
      this.columns := columns;
      this.rows := rows;
      ageGroup := [];
      ctr := [];
    }

    /** Both derived columns are present and hold, row by row, the group and
        the CTR of that row. */
    ghost predicate Binned()
      reads this
    {
      "Age_Group" in columns && "CTR" in columns &&
      |ageGroup| == |rows| && |ctr| == |rows| &&
      forall i :: 0 <= i < |rows| ==>
        ageGroup[i] == AgeGroupCell(rows[i].age) && ctr[i] == Ctr(rows[i].clicks, rows[i].impressions)
    }

    /** The outer `bin_by_age(df)`: add both columns, computed row by row. */
    method BinByAge()
      modifies this
      ensures Binned()
      ensures rows == old(rows) && columns == old(columns) + {"Age_Group", "CTR"}
    {
      ageGroup := seq(|rows|, i requires 0 <= i < |rows| reads this => AgeGroupCell(rows[i].age));
      ctr := seq(|rows|, i requires 0 <= i < |rows| reads this => Ctr(rows[i].clicks, rows[i].impressions));
      columns := columns + {"Age_Group", "CTR"};
    }
  }

  /** The pruning loop: prune every loaded table, append the pruned table
      to `new_data`, and add the table's rows to `total` and the rows it lost
      to `dropped`. */
  method PruneNyt(data: seq<Table>) returns (newData: seq<Table>, total: int, dropped: int)
    ensures newData == MapSeq(CleanNytTable, data)
    ensures total == RowCount(data)
    ensures dropped + RowCount(newData) == total
    ensures 0 <= dropped <= total
  {
    dropped, total, newData := 0, 0, [];
    var i := 0;
    while i < |data|
      invariant 0 <= i <= |data|
      invariant newData == MapSeq(CleanNytTable, data[..i])
      invariant total == RowCount(data[..i])
      invariant dropped + RowCount(newData) == total
      invariant 0 <= dropped
    {
      var frame := data[i];
      var pruned := CleanNytTable(frame);
      total := total + |frame.rows|;
      dropped := dropped + (|frame.rows| - |pruned.rows|);
      newData := newData + [pruned];
      PruneStep(CleanNytTable, data, i);
      i := i + 1;
    }
    assert data[..i] == data;
  }

  /** The pruned tables as the frame objects the script goes on to mutate,
      one new frame per table, in order. */
  method ToFrames(tables: seq<Table>) returns (frames: seq<Frame>)
    ensures |frames| == |tables|
    ensures forall k :: 0 <= k < |tables| ==>
      fresh(frames[k]) && frames[k].columns == tables[k].columns && frames[k].rows == tables[k].rows &&
      frames[k].ageGroup == [] && frames[k].ctr == []
    ensures forall j, k :: 0 <= j < k < |frames| ==> frames[j] != frames[k]
  {
    frames := [];
    for i := 0 to |tables|
      invariant |frames| == i
      invariant forall k :: 0 <= k < i ==>
        fresh(frames[k]) && frames[k].columns == tables[k].columns && frames[k].rows == tables[k].rows &&
        frames[k].ageGroup == [] && frames[k].ctr == []
      invariant forall j, k :: 0 <= j < k < i ==> frames[j] != frames[k]
    {
      var frame := new Frame(tables[i].columns, tables[i].rows);
      frames := frames + [frame];
    }
  }

  /** A table after the pruning chain; its columns stay as they were. */
  function CleanNytTable(t: Table): (r: Table)
    ensures r.columns == t.columns && r.rows == MapSeq(RecodeGender, Filter(ValidNyt, t.rows))
  {
    CleanNytIsRecodedFilter(t.rows);
    Table(t.columns, CleanNyt(t.rows))
  }

  /** The binning loop: `bin_by_age(frame)` on every pruned frame. */
  method BinAll(frames: seq<Frame>)
    requires forall j, k :: 0 <= j < k < |frames| ==> frames[j] != frames[k]
    modifies set f | f in frames
    ensures forall k :: 0 <= k < |frames| ==>
      frames[k].Binned() && frames[k].rows == old(frames[k].rows) &&
      frames[k].columns == old(frames[k].columns) + {"Age_Group", "CTR"}
  {
    for i := 0 to |frames|
      invariant forall k :: 0 <= k < i ==>
        frames[k].Binned() && frames[k].rows == old(frames[k].rows) &&
        frames[k].columns == old(frames[k].columns) + {"Age_Group", "CTR"}
      invariant forall k :: i <= k < |frames| ==>
        frames[k].rows == old(frames[k].rows) && frames[k].columns == old(frames[k].columns)
    {
      frames[i].BinByAge();
    }
  }

  /** How the script ends: it stops when no file loaded (the source calls
      `sys.exit` there without importing `sys`, which stops it too), it
      stops on the division error of the drop report when the loaded
      tables hold no row, and otherwise it bins every pruned frame. */
  datatype Ending = NoTablesLoaded | ReportFailed(error: ArithError) | Completed(percent: real)

  method RunNyt(files: seq<Source>) returns (frames: seq<Frame>, total: int, dropped: int, ending: Ending)
    ensures ending == NoTablesLoaded <==> |Loaded(files)| == 0
    ensures ending.ReportFailed? <==> |Loaded(files)| > 0 && RowCount(Loaded(files)) == 0
    ensures ending.ReportFailed? ==> DropPercentage(dropped, total) == Err(ending.error)
    ensures ending.Completed? ==>
      DropPercentage(dropped, total) == Ok(ending.percent) &&
      0.0 <= ending.percent <= 100.0 &&
      total == RowCount(Loaded(files)) &&
      dropped + RowCount(MapSeq(CleanNytTable, Loaded(files))) == total &&
      |frames| == |Loaded(files)| &&
      forall k :: 0 <= k < |frames| ==>
        fresh(frames[k]) && frames[k].Binned() &&
        frames[k].rows == CleanNyt(Loaded(files)[k].rows) &&
        frames[k].columns == Loaded(files)[k].columns + {"Age_Group", "CTR"}
  {
    frames, total, dropped := [], 0, 0;
    var data, skipped := LoadTables(files);
    if |data| == 0 {
      return frames, total, dropped, NoTablesLoaded;
    }
    var newData;
    newData, total, dropped := PruneNyt(data);
    var percent := DropPercentage(dropped, total);
    if percent.Err? {
      return frames, total, dropped, ReportFailed(percent.error);
    }
    frames := ToFrames(newData);
    BinAll(frames);
    ending := Completed(percent.value);
  }
}
