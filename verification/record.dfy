/** The single-row input record the serving page hands to the pipeline. */
module Record {
  import opened Wrappers
  import opened PyText
  import opened Domains
  import opened Region
  import opened Cells

  datatype Column = Column(name: string, value: Cell)

  /** One record: named cells in column order. */
  type Row = seq<Column>

  /** The record's columns, in the order the record is written. */
  const RecordColumns: seq<string> := [
    "District", "Ward", "House_type", "Legal_documents", "No_floor", "No_bedroom",
    "Length", "Width", "Day_Of_Week", "Month", "Area", "Region"]

  /** The ward every record carries, whatever the user chose. */
  const DefaultWard: string := "NGHĨA ĐÔ"

  function Names(row: Row): (names: seq<string>)
    ensures |names| == |row|
    ensures forall k :: 0 <= k < |row| ==> names[k] == row[k].name
  {
    seq(|row|, k requires 0 <= k < |row| => row[k].name)
  }

  /** The value under a column name: the first column so named, if any. */
  function Lookup(row: Row, name: string): (r: Option<Cell>)
    ensures r.None? <==> name !in Names(row)
    ensures r.Some? ==> exists k :: 0 <= k < |row| && row[k].name == name && row[k].value == r.value
  {
    if |row| == 0 then None
    else if row[0].name == name then Some(row[0].value)
    else
      assert Names(row) == [row[0].name] + Names(row[1..]);
      Lookup(row[1..], name)
  }

  /** With distinct names, looking up a column's name finds that column. */
  lemma {:induction false} LookupAt(row: Row, k: nat)
    requires Distinct(Names(row))
    requires k < |row|
    ensures Lookup(row, row[k].name) == Some(row[k].value)
    decreases k
  {
    if k > 0 {
      assert row[1..][k - 1] == row[k];
      LookupAt(row[1..], k - 1);
    }
  }

  /** Builds the record from the sidebar choices. Only the month needs care:
      `int` raises on anything but a decimal string. */
  function BuildRecord(x: RawInput): (row: Row)
    requires ParseNat(x.month).Some?
    ensures Names(row) == RecordColumns
  {
    [ Column("District", Text(x.district)),
      Column("Ward", Text(DefaultWard)),
      Column("House_type", Text(x.houseType)),
      Column("Legal_documents", Text(x.legalDocuments)),
      Column("No_floor", Text(x.noFloor)),
      Column("No_bedroom", Text(x.noBedroom)),
      Column("Length", Real(x.length)),
      Column("Width", Real(x.width)),
      Column("Day_Of_Week", Text(Upper(x.dayOfWeek))),
      Column("Month", Int(ParseNat(x.month).value)),
      Column("Area", Real(x.area)),
      Column("Region", Int(GetRegion(x.district))) ]
  }

  /** What each named column of the record holds: the user's choice for the
      select boxes and sliders, the fixed default ward, the upper-cased
      weekday, the parsed month and the Region derived from the district. */
  lemma RecordCells(x: RawInput)
    requires ParseNat(x.month).Some?
    ensures var row := BuildRecord(x);
      && Lookup(row, "District") == Some(Text(x.district))
      && Lookup(row, "Ward") == Some(Text(DefaultWard))
      && Lookup(row, "House_type") == Some(Text(x.houseType))
      && Lookup(row, "Legal_documents") == Some(Text(x.legalDocuments))
      && Lookup(row, "No_floor") == Some(Text(x.noFloor))
      && Lookup(row, "No_bedroom") == Some(Text(x.noBedroom))
      && Lookup(row, "Length") == Some(Real(x.length))
      && Lookup(row, "Width") == Some(Real(x.width))
      && Lookup(row, "Day_Of_Week") == Some(Text(Upper(x.dayOfWeek)))
      && Lookup(row, "Month") == Some(Int(ParseNat(x.month).value))
      && Lookup(row, "Area") == Some(Real(x.area))
      && Lookup(row, "Region") == Some(Int(GetRegion(x.district)))
  {
    var row := BuildRecord(x);
    RecordColumnsDistinct();
    assert Distinct(Names(row));
    LookupAt(row, 0); LookupAt(row, 1); LookupAt(row, 2); LookupAt(row, 3);
    LookupAt(row, 4); LookupAt(row, 5); LookupAt(row, 6); LookupAt(row, 7);
    LookupAt(row, 8); LookupAt(row, 9); LookupAt(row, 10); LookupAt(row, 11);
  }

  /** No column name repeats, so every lookup names exactly one cell. */
  lemma RecordColumnsDistinct()
    ensures Distinct(RecordColumns)
  {
  }

  /** For every choice the widgets allow, each cell lies in its domain:
      counts stay the chosen strings, the weekday is upper-cased, the month
      is a number from 1 to 12, the sizes lie in their slider ranges and the
      ward and region are the fixed and derived values. */
  lemma RecordInDomain(x: RawInput)
    requires ValidInput(x)
    ensures ParseNat(x.month).Some?
    ensures var row := BuildRecord(x);
      && (exists c :: c in CountChoices && Lookup(row, "No_floor") == Some(Text(c)))
      && (exists c :: c in CountChoices && Lookup(row, "No_bedroom") == Some(Text(c)))
      && (exists w :: w in UpperWeekdays && Lookup(row, "Day_Of_Week") == Some(Text(w)))
      && (exists m :: 1 <= m <= 12 && Lookup(row, "Month") == Some(Int(m)))
      && (exists v :: AreaSlider.Allows(v) && Lookup(row, "Area") == Some(Real(v)))
      && (exists v :: WidthSlider.Allows(v) && Lookup(row, "Width") == Some(Real(v)))
      && (exists v :: LengthSlider.Allows(v) && Lookup(row, "Length") == Some(Real(v)))
      && Lookup(row, "Region") == Some(Int(if x.district in ServingUrban then 1 else 0))
  {
    MonthChoiceParses(x.month);
    WeekdayUpperCased(x.dayOfWeek);
    RecordCells(x);
    var row := BuildRecord(x);
    var w := Upper(x.dayOfWeek);
    assert w in UpperWeekdays && Lookup(row, "Day_Of_Week") == Some(Text(w));
    var m := ParseNat(x.month).value;
    assert 1 <= m <= 12 && Lookup(row, "Month") == Some(Int(m));
    assert x.noFloor in CountChoices && Lookup(row, "No_floor") == Some(Text(x.noFloor));
    assert x.noBedroom in CountChoices && Lookup(row, "No_bedroom") == Some(Text(x.noBedroom));
    assert AreaSlider.Allows(x.area) && Lookup(row, "Area") == Some(Real(x.area));
    assert WidthSlider.Allows(x.width) && Lookup(row, "Width") == Some(Real(x.width));
    assert LengthSlider.Allows(x.length) && Lookup(row, "Length") == Some(Real(x.length));
  }

  lemma WeekdayUpperCased(d: string)
    requires d in Weekdays
    ensures Upper(d) in UpperWeekdays
  {
    WeekdaysUpperCased();
    var k :| 0 <= k < |Weekdays| && Weekdays[k] == d;
    assert Upper(d) == UpperWeekdays[k];
  }

  /** Region is a function of District alone: two choices with the same
      district get the same Region cell, whatever else differs. */
  lemma RegionDependsOnlyOnDistrict(x: RawInput, y: RawInput)
    requires ParseNat(x.month).Some? && ParseNat(y.month).Some?
    requires x.district == y.district
    ensures Lookup(BuildRecord(x), "Region") == Lookup(BuildRecord(y), "Region")
    ensures Lookup(BuildRecord(x), "Ward") == Lookup(BuildRecord(y), "Ward")
  {
    RecordCells(x);
    RecordCells(y);
  }

  /** The initial choices, but a villa on a Friday, give a Cầu Giấy record
      with Region 1, month 8 and Day_Of_Week FRIDAY. */
  lemma FridayExample()
    ensures var x := InitialInput().(houseType := "VILLA", dayOfWeek := "Friday");
      && ParseNat(x.month).Some?
      && Lookup(BuildRecord(x), "Region") == Some(Int(1))
      && Lookup(BuildRecord(x), "Month") == Some(Int(8))
      && Lookup(BuildRecord(x), "Day_Of_Week") == Some(Text("FRIDAY"))
  {
    var x := InitialInput().(houseType := "VILLA", dayOfWeek := "Friday");
    assert Upper(x.dayOfWeek) == "FRIDAY" by {
      WeekdaysUpperCased();
      assert x.dayOfWeek == Weekdays[4];
    }
    assert ParseNat(x.month) == Some(8) by {
      MonthChoiceParses(x.month);
      NatRoundTrip(8);
    }
    assert GetRegion(x.district) == 1;
    RecordCells(x);
  }
}
