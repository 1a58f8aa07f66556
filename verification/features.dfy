/** The offline script that rebuilds the feature layout a training notebook
    used: drop the target, size and street columns, add Region with the offline
    urban list, put the categorical columns first, then one-hot encode. */
module Features {
  import opened Wrappers
  import opened Region
  import opened Record
  import opened Frame
  import opened Cells

  /** Columns removed before training; `errors='ignore'` makes absent ones
      harmless. The serving page defines, but never calls, a loader that
      drops the same. */
  const DroppedColumns: seq<string> := ["Width", "Length", "Area", "Price", "Street", "Price_range"]

  /** Columns the encoder turns into dummies, and the ones passed through. */
  const CatCols: seq<string> := ["District", "Ward", "House_type", "Legal_documents", "Day_Of_Week"]
  const RemCols: seq<string> := ["No_floor", "No_bedroom", "Month", "Region"]

  /** `region` applied to one District cell: a non-text cell (a missing
      value, say) is never in the list, so it gets 0. */
  function RegionCell(c: Cell): (r: Cell)
    ensures r == Int(0) || r == Int(1)
    ensures r == Int(1) <==> c.Text? && c.s in OfflineUrban
  {
    Int(if c.Text? then OfflineRegion(c.s) else 0)
  }

  /** The column order after reordering. */
  const PreparedColumns: seq<string> := [
    "District", "Ward", "House_type", "Legal_documents", "Day_Of_Week",
    "No_floor", "No_bedroom", "Month", "Region"]

  /** The two column groups are disjoint and together name nine distinct
      columns, none of which is dropped; District comes first and Region
      last. */
  lemma ColumnGroups()
    ensures CatCols + RemCols == PreparedColumns
    ensures forall c :: c in CatCols ==> c !in RemCols
    ensures Distinct(PreparedColumns)
    ensures forall c :: c in PreparedColumns ==> c !in DroppedColumns
    ensures PreparedColumns[0] == "District" && PreparedColumns[8] == "Region"
    ensures forall k :: 0 <= k < 8 ==> PreparedColumns[k] != "Region"
  {
  }

  /** Dropping never removes a column the later steps need. */
  lemma NeededColumnsSurviveDrop(f: Frame)
    requires WellFormed(f)
    ensures forall c :: c in PreparedColumns ==> (c in Columns(Drop(f, DroppedColumns)) <==> c in Columns(f))
  {
    ColumnGroups();
  }

  /** Steps 1 to 3 of the script on a frame read from the CSV: drop, add
      Region from District, reorder to categorical then remainder. It fails
      exactly when a needed input column is missing (Region is made, not
      read); on success the frame has the nine columns in that order, the
      same rows, every column but Region copied from the input, and each
      row's Region computed from that row's District. */
  function PrepareFeatures(f: Frame): (r: Result<Frame, FrameError>)
    requires WellFormed(f)
    ensures r.Success? <==> forall c :: c in PreparedColumns && c != "Region" ==> c in Columns(f)
    ensures r.Success? ==> WellFormed(r.value) && r.value.nrows == f.nrows
    ensures r.Success? ==> Columns(r.value) == CatCols + RemCols
    ensures r.Success? ==> forall k :: 0 <= k < 8 ==> Some(r.value.series[k]) == Get(f, PreparedColumns[k])
    ensures r.Success? ==> forall i :: 0 <= i < f.nrows ==>
      r.value.series[8].values[i] == RegionCell(r.value.series[0].values[i])
  {
    ColumnGroups();
    var dropped := Drop(f, DroppedColumns);
    NeededColumnsSurviveDrop(f);
    match Derive(dropped, "District", "Region", RegionCell)
    case Failure(e) =>
      Failure(e)
    case Success(withRegion) =>
      var r := Select(withRegion, CatCols + RemCols);
      SelectSucceeds(f, dropped, withRegion);
      if r.Success? then
        SelectCopies(f, withRegion, r.value);
        SelectRegion(dropped, withRegion, r.value);
        r
      else r
  }

  /** The reordering step succeeds exactly when every needed input column
      was present. */
  lemma SelectSucceeds(f: Frame, dropped: Frame, withRegion: Frame)
    requires WellFormed(f)
    requires dropped == Drop(f, DroppedColumns)
    requires Derive(dropped, "District", "Region", RegionCell) == Success(withRegion)
    ensures Select(withRegion, PreparedColumns).Success? <==>
      forall c :: c in PreparedColumns && c != "Region" ==> c in Columns(f)
  {
    NeededColumnsSurviveDrop(f);
    var cs := Columns(dropped);
    assert Columns(withRegion) == if "Region" in cs then cs else cs + ["Region"];
    assert forall c :: c in Columns(withRegion) <==> c in cs || c == "Region";
    var r := Select(withRegion, PreparedColumns);
    if r.Failure? {
      var c :| c in PreparedColumns && c !in Columns(withRegion);
      assert c != "Region" && c !in Columns(f);
    }
  }

  /** Every column but Region comes out of the reordering as it was read. */
  lemma SelectCopies(f: Frame, withRegion: Frame, g: Frame)
    requires WellFormed(f)
    requires forall s :: s in withRegion.series && s.name != "Region" ==> s in f.series
    requires |g.series| == |PreparedColumns|
    requires forall k :: 0 <= k < |PreparedColumns| ==> Get(withRegion, PreparedColumns[k]) == Some(g.series[k])
    ensures forall k :: 0 <= k < 8 ==> Some(g.series[k]) == Get(f, PreparedColumns[k])
  {
    ColumnGroups();
    forall k | 0 <= k < 8
      ensures Some(g.series[k]) == Get(f, PreparedColumns[k])
    {
      assert Get(withRegion, PreparedColumns[k]) == Some(g.series[k]);
      GetUnique(f, g.series[k]);
    }
  }

  /** Each row's Region after reordering is `region` of its District. */
  lemma SelectRegion(dropped: Frame, withRegion: Frame, g: Frame)
    requires WellFormed(dropped)
    requires Derive(dropped, "District", "Region", RegionCell) == Success(withRegion)
    requires WellFormed(withRegion)
    requires Select(withRegion, PreparedColumns) == Success(g)
    requires WellFormed(g) && |g.series| == 9
    ensures g.nrows == dropped.nrows
    ensures forall i :: 0 <= i < g.nrows ==> g.series[8].values[i] == RegionCell(g.series[0].values[i])
  {
    ColumnGroups();
    var d :| d in withRegion.series && d.name == "Region" && |d.values| == dropped.nrows
      && forall i :: 0 <= i < dropped.nrows ==> d.values[i] == RegionCell(Get(dropped, "District").value.values[i]);
    GetUnique(withRegion, d);
    assert g.series[8] == d;
    var district := Get(dropped, "District").value;
    assert district in withRegion.series;
    GetUnique(withRegion, district);
    assert g.series[0] == district;
  }

  /** Step 4, as the script's comment describes `get_dummies`: for a
      categorical column, one `column_category` dummy per category in
      `values`. Which categories exist, and their order within a group, is
      the library's choice; `DummyGroups` takes it as `categories`. */
  function Dummies(col: string, values: seq<string>): seq<string> {
    seq(|values|, k requires 0 <= k < |values| => col + "_" + values[k])
  }

  /** Each dummy is named after its column and its category, one per
      category, in the categories' order. */
  lemma DummyNames(col: string, values: seq<string>)
    ensures |Dummies(col, values)| == |values|
    ensures forall k :: 0 <= k < |values| ==> Dummies(col, values)[k] == col + "_" + values[k]
  {
  }

  function DummyGroups(cats: seq<string>, categories: string -> seq<string>): seq<string> {
    if |cats| == 0 then []
    else Dummies(cats[0], categories(cats[0])) + DummyGroups(cats[1..], categories)
  }

  /** The encoded layout the comment claims: the columns that are not
      encoded, in their order, then the dummy groups in categorical order. */
  function EncodedLayout(cols: seq<string>, cats: seq<string>, categories: string -> seq<string>): seq<string> {
    Without(cols, cats) + DummyGroups(cats, categories)
  }

  lemma {:induction false} DummyGroupsAppend(a: seq<string>, b: seq<string>, categories: string -> seq<string>)
    ensures DummyGroups(a + b, categories) == DummyGroups(a, categories) + DummyGroups(b, categories)
    decreases |a|
  {
    if |a| == 0 {
      assert a + b == b;
    } else {
      DummyGroupsAppend(a[1..], b, categories);
      assert (a + b)[0] == a[0];
      assert (a + b)[1..] == a[1..] + b;
      var head := Dummies(a[0], categories(a[0]));
      var ta, tb := DummyGroups(a[1..], categories), DummyGroups(b, categories);
      assert DummyGroups(a + b, categories) == head + (ta + tb);
      assert DummyGroups(a, categories) == head + ta;
      assert head + (ta + tb) == head + ta + tb;
    }
  }

  /** Group `g`'s dummies form one block, after the blocks of the groups
      before it and before those of the groups after it. */
  lemma GroupInPlace(cats: seq<string>, categories: string -> seq<string>, g: nat)
    requires g < |cats|
    ensures DummyGroups(cats, categories)
         == DummyGroups(cats[..g], categories) + Dummies(cats[g], categories(cats[g])) + DummyGroups(cats[g + 1..], categories)
  {
    var before, rest := cats[..g], cats[g..];
    assert cats == before + rest;
    DummyGroupsAppend(before, rest, categories);
    assert rest[0] == cats[g] && rest[1..] == cats[g + 1..];
    var own, after := Dummies(cats[g], categories(cats[g])), DummyGroups(cats[g + 1..], categories);
    assert DummyGroups(rest, categories) == own + after;
    assert DummyGroups(before, categories) + (own + after) == DummyGroups(before, categories) + own + after;
  }

  /** Encoding the reordered frame leaves exactly the passed-through
      columns undummied. */
  lemma PassThroughColumns()
    ensures Without(PreparedColumns, CatCols) == RemCols
  {
    ColumnGroups();
    WithoutAppend(CatCols, RemCols, CatCols);
    WithoutNothing(RemCols, CatCols);
    WithoutMembers(CatCols, CatCols);
  }

  /** On the reordered frame, the encoded layout is the four passed-through
      columns in their order, then the five dummy groups one after another in
      categorical order. */
  lemma PreparedLayout(categories: string -> seq<string>, g: nat)
    requires g < |CatCols|
    ensures EncodedLayout(PreparedColumns, CatCols, categories)
         == RemCols + DummyGroups(CatCols[..g], categories)
                    + Dummies(CatCols[g], categories(CatCols[g]))
                    + DummyGroups(CatCols[g + 1..], categories)
  {
    PassThroughColumns();
    var before, own, after := DummyGroups(CatCols[..g], categories), Dummies(CatCols[g], categories(CatCols[g])), DummyGroups(CatCols[g + 1..], categories);
    GroupInPlace(CatCols, categories, g);
    Regroup(RemCols, before, own, after);
  }

  /** Proof aid: re-associates a concatenation, so that `PreparedLayout`
      does not leave the step to the solver. */
  lemma Regroup(a: seq<string>, b: seq<string>, c: seq<string>, d: seq<string>)
    ensures a + (b + c + d) == a + b + c + d
  {
  }

  /** The serving record's columns that survive the offline drop, in the
      serving record's order. */
  const ServingKept: seq<string> := [
    "District", "Ward", "House_type", "Legal_documents", "No_floor", "No_bedroom",
    "Day_Of_Week", "Month", "Region"]

  /** Proof aid, not part of the page or the script: the serving record's
      columns in five runs (kept, dropped, kept, dropped, kept), so that the
      drop can be reasoned about one run at a time. */
  const RecordRuns: seq<seq<string>> := [
    ["District", "Ward", "House_type", "Legal_documents", "No_floor", "No_bedroom"],
    ["Length", "Width"],
    ["Day_Of_Week", "Month"],
    ["Area"],
    ["Region"]]

  lemma RecordInRuns()
    ensures RecordColumns == RecordRuns[0] + RecordRuns[1] + RecordRuns[2] + RecordRuns[3] + RecordRuns[4]
    ensures ServingKept == RecordRuns[0] + RecordRuns[2] + RecordRuns[4]
  {
  }

  lemma DropKeepsHead()
    ensures Without(RecordRuns[0], DroppedColumns) == RecordRuns[0]
  {
    WithoutNothing(RecordRuns[0], DroppedColumns);
  }

  lemma DropTakesLengthWidth()
    ensures Without(RecordRuns[1], DroppedColumns) == []
  {
  }

  lemma DropKeepsDates()
    ensures Without(RecordRuns[2], DroppedColumns) == RecordRuns[2]
  {
    var r := RecordRuns[2];
    assert r[0] !in DroppedColumns && r[1] !in DroppedColumns;
    assert Without(r[1..], DroppedColumns) == [r[1]] + Without(r[2..], DroppedColumns);
  }

  lemma DropTakesArea()
    ensures Without(RecordRuns[3], DroppedColumns) == []
  {
  }

  lemma DropKeepsRegion()
    ensures Without(RecordRuns[4], DroppedColumns) == RecordRuns[4]
  {
  }

  /** Dropping from five runs that are alternately untouched and removed
      whole keeps the untouched runs. */
  lemma {:induction false} WithoutAlternatingRuns(r0: seq<string>, r1: seq<string>, r2: seq<string>, r3: seq<string>, r4: seq<string>, drop: seq<string>)
    requires Without(r0, drop) == r0 && Without(r2, drop) == r2 && Without(r4, drop) == r4
    requires Without(r1, drop) == [] && Without(r3, drop) == []
    ensures Without(r0 + r1 + r2 + r3 + r4, drop) == r0 + r2 + r4
  {
    WithoutAppend(r0, r1, drop);
    assert r0 + [] == r0;
    WithoutAppend(r0 + r1, r2, drop);
    WithoutAppend(r0 + r1 + r2, r3, drop);
    assert r0 + r2 + [] == r0 + r2;
    WithoutAppend(r0 + r1 + r2 + r3, r4, drop);
  }

  /** The offline drop keeps, of the serving record, exactly the nine
      columns of `ServingKept`. */
  lemma ServingRecordAfterDrop()
    ensures Without(RecordColumns, DroppedColumns) == ServingKept
  {
    RecordInRuns();
    DropKeepsHead(); DropTakesLengthWidth(); DropKeepsDates(); DropTakesArea(); DropKeepsRegion();
    WithoutAlternatingRuns(RecordRuns[0], RecordRuns[1], RecordRuns[2], RecordRuns[3], RecordRuns[4], DroppedColumns);
  }

  /** The serving record and the offline layout carry the same features:
      the offline drop takes exactly the three sizes out of the serving
      record's columns, and what remains is the offline layout's nine
      columns, in a different order (Day_Of_Week comes after the counts when
      serving, before them offline). */
  lemma ServingVersusOfflineColumns()
    ensures Without(RecordColumns, DroppedColumns) == ServingKept
    ensures forall c :: c in ServingKept <==> c in PreparedColumns
    ensures ServingKept != PreparedColumns
  {
    ServingRecordAfterDrop();
    ServingKeptReordered();
    assert ServingKept[4] != PreparedColumns[4];
  }

  lemma ServingKeptReordered()
    ensures forall c :: c in ServingKept <==> c in PreparedColumns
  {
    assert ServingKept == PreparedColumns[..4] + PreparedColumns[5..7] + [PreparedColumns[4]] + PreparedColumns[7..];
  }
}
