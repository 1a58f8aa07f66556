/** The sidebar widgets of the prediction page: the value each select box
    offers, the range of each slider, and the record of choices a user makes. */
module Domains {
  import opened PyText

  const HouseTypes: seq<string> := ["BYROAD", "STREET_HOUSE", "TOWNHOUSE", "VILLA"]

  const LegalDocuments: seq<string> := ["AVAILABLE", "WAITING", "OTHERS"]

  /** Choices of the floor-count and bedroom-count boxes. */
  const CountChoices: seq<string> :=
    ["1", "2", "3", "4", "5", "6", "7", "8", "9", "10", "GREATER_THAN_10"]

  /** Choices of the month box; `MonthChoicesArePrinted` shows these are
      `str(i)` for `i` from 1 to 12. */
  const MonthChoices: seq<string> := ["1", "2", "3", "4", "5", "6", "7", "8", "9", "10", "11", "12"]

  const Weekdays: seq<string> :=
    ["Monday", "Tuesday", "Wednesday", "Thursday", "Friday", "Saturday", "Sunday"]

  /** The 29 selectable districts, in select-box order. */
  const Districts: seq<string> := [
    "CẦU GIẤY", "THANH XUÂN", "HAI BÀ TRƯNG", "TÂY HỒ", "ĐỐNG ĐA", "HÀ ĐÔNG",
    "HUYỆN THANH TRÌ", "HOÀNG MAI", "LONG BIÊN", "HOÀN KIẾM", "NAM TỪ LIÊM",
    "BA ĐÌNH", "HUYỆN HOÀI ĐỨC", "BẮC TỪ LIÊM", "HUYỆN ĐAN PHƯỢNG",
    "HUYỆN THANH OAI", "HUYỆN SÓC SƠN", "HUYỆN GIA LÂM", "HUYỆN CHƯƠNG MỸ",
    "HUYỆN ĐÔNG ANH", "HUYỆN THƯỜNG TÍN", "THỊ XÃ SƠN TÂY", "HUYỆN MÊ LINH",
    "HUYỆN THẠCH THẤT", "HUYỆN QUỐC OAI", "HUYỆN PHÚC THỌ", "HUYỆN PHÚ XUYÊN",
    "HUYỆN BA VÌ", "HUYỆN MỸ ĐỨC"]

  /** A slider: the closed range it allows and the value it starts at. */
  datatype Slider = Slider(lo: real, hi: real, initial: real) {
    predicate Allows(v: real) {
      lo <= v <= hi
    }
  }

  const AreaSlider := Slider(1.0, 500.0, 44.0)
  const WidthSlider := Slider(1.0, 20.0, 4.0)
  const LengthSlider := Slider(1.0, 50.0, 11.0)

  /** What the user picked in the sidebar, as the widgets return it:
      select boxes give strings, sliders give numbers. */
  datatype RawInput = RawInput(
    houseType: string,
    legalDocuments: string,
    noFloor: string,
    noBedroom: string,
    month: string,
    dayOfWeek: string,
    district: string,
    area: real,
    width: real,
    length: real)

  /** Every value the widgets can produce. */
  predicate ValidInput(x: RawInput) {
    && x.houseType in HouseTypes
    && x.legalDocuments in LegalDocuments
    && x.noFloor in CountChoices
    && x.noBedroom in CountChoices
    && x.month in MonthChoices
    && x.dayOfWeek in Weekdays
    && x.district in Districts
    && AreaSlider.Allows(x.area)
    && WidthSlider.Allows(x.width)
    && LengthSlider.Allows(x.length)
  }

  /** The record shown before the user touches anything: the first choice of
      each box except floors (index 3), bedrooms (index 2) and month
      (index 7), and each slider's initial value. */
  function InitialInput(): (x: RawInput)
    ensures ValidInput(x)
    ensures x.noFloor == "4" && x.noBedroom == "3" && x.month == "8"
    ensures x.district == "CẦU GIẤY"
  {
    RawInput(HouseTypes[0], LegalDocuments[0], CountChoices[3], CountChoices[2],
             MonthChoices[7], Weekdays[0], Districts[0],
             AreaSlider.initial, WidthSlider.initial, LengthSlider.initial)
  }

  /** The month box lists `str(i)` for `i` in `range(1, 13)`. */
  lemma MonthChoicesArePrinted()
    ensures |MonthChoices| == 12
    ensures forall k :: 0 <= k < 12 ==> MonthChoices[k] == NatToString(k + 1)
  {
    assert NatToString(10) == NatToString(1) + [DigitChar(0)];
    assert NatToString(11) == NatToString(1) + [DigitChar(1)];
    assert NatToString(12) == NatToString(1) + [DigitChar(2)];
  }

  /** Every month choice parses, with `int`, to its own month number, and
      printing that number gives the choice back. */
  lemma MonthChoiceParses(c: string)
    requires c in MonthChoices
    ensures ParseNat(c).Some?
    ensures 1 <= ParseNat(c).value <= 12
    ensures MonthChoices[ParseNat(c).value - 1] == c
  {
    MonthChoicesArePrinted();
    var k :| 0 <= k < 12 && MonthChoices[k] == c;
    NatRoundTrip(k + 1);
  }

  /** The values the model sees in the Day_Of_Week column. */
  const UpperWeekdays: seq<string> :=
    ["MONDAY", "TUESDAY", "WEDNESDAY", "THURSDAY", "FRIDAY", "SATURDAY", "SUNDAY"]

  /** Upper-casing the weekday box's choices gives exactly the values the
      model sees, position by position. */
  lemma WeekdaysUpperCased()
    ensures |UpperWeekdays| == |Weekdays|
    ensures forall k :: 0 <= k < |Weekdays| ==> Upper(Weekdays[k]) == UpperWeekdays[k]
  {
    forall k | 0 <= k < |Weekdays|
      ensures Upper(Weekdays[k]) == UpperWeekdays[k]
    {
      var w, u := Weekdays[k], UpperWeekdays[k];
      assert |Upper(w)| == |u|;
      forall j | 0 <= j < |u|
        ensures Upper(w)[j] == u[j]
      {
      }
    }
  }
}
