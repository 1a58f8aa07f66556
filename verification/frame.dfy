/** The three pandas frame operations the offline feature script applies,
    on a column-major frame: a sequence of named columns of equal length. */
module Frame {
  import opened Wrappers
  import opened Cells

  /** One named column and its values, top row first. */
  datatype Series = Series(name: string, values: seq<Cell>)

  datatype Frame = Frame(nrows: nat, series: seq<Series>)

  /** Accessing a column that is not there raises KeyError. */
  datatype FrameError = KeyError(column: string)

  function Names(ss: seq<Series>): (names: seq<string>)
    ensures |names| == |ss|
    ensures forall k :: 0 <= k < |ss| ==> names[k] == ss[k].name
  {
    if |ss| == 0 then [] else [ss[0].name] + Names(ss[1..])
  }

  function Columns(f: Frame): seq<string> {
    Names(f.series)
  }

  /** Column labels are unique (reading a CSV renames repeated headers) and
      every column has one value per row. */
  predicate WellFormed(f: Frame) {
    && Distinct(Columns(f))
    && forall k :: 0 <= k < |f.series| ==> |f.series[k].values| == f.nrows
  }

  /** The names of `cols` that are not in `drop`, in their original order. */
  function Without(cols: seq<string>, drop: seq<string>): (kept: seq<string>)
    ensures |kept| <= |cols|
  {
    if |cols| == 0 then []
    else (if cols[0] in drop then [] else [cols[0]]) + Without(cols[1..], drop)
  }

  /** A name survives exactly when it was there and is not dropped. */
  lemma {:induction false} WithoutMembers(cols: seq<string>, drop: seq<string>)
    ensures forall c :: c in Without(cols, drop) <==> c in cols && c !in drop
    decreases |cols|
  {
    if |cols| > 0 {
      WithoutMembers(cols[1..], drop);
      assert cols == [cols[0]] + cols[1..];
    }
  }

  lemma {:induction false} WithoutDistinct(cols: seq<string>, drop: seq<string>)
    requires Distinct(cols)
    ensures Distinct(Without(cols, drop))
    decreases |cols|
  {
    if |cols| > 0 {
      WithoutDistinct(cols[1..], drop);
      WithoutMembers(cols[1..], drop);
      assert cols[0] !in cols[1..];
    }
  }

  lemma {:induction false} WithoutAppend(a: seq<string>, b: seq<string>, drop: seq<string>)
    ensures Without(a + b, drop) == Without(a, drop) + Without(b, drop)
    decreases |a|
  {
    if |a| == 0 {
      assert a + b == b;
    } else {
      WithoutAppend(a[1..], b, drop);
      assert (a + b)[0] == a[0];
      assert (a + b)[1..] == a[1..] + b;
      var head := if a[0] in drop then [] else [a[0]];
      assert Without(a + b, drop) == head + Without(a[1..] + b, drop);
      assert Without(a, drop) == head + Without(a[1..], drop);
    }
  }

  /** Removing only absent names changes nothing; removing a list from
      itself leaves nothing. */
  lemma {:induction false} WithoutNothing(cols: seq<string>, drop: seq<string>)
    requires forall c :: c in cols ==> c !in drop
    ensures Without(cols, drop) == cols
    decreases |cols|
  {
    if |cols| > 0 {
      WithoutNothing(cols[1..], drop);
    }
  }

  /** Dropping the same names a second time changes nothing. */
  lemma {:induction false} WithoutTwice(cols: seq<string>, drop: seq<string>)
    ensures Without(Without(cols, drop), drop) == Without(cols, drop)
  {
    WithoutMembers(cols, drop);
    WithoutNothing(Without(cols, drop), drop);
  }

  function DropSeries(ss: seq<Series>, drop: seq<string>): (kept: seq<Series>)
    ensures forall s :: s in kept <==> s in ss && s.name !in drop
    ensures Names(kept) == Without(Names(ss), drop)
  {
    if |ss| == 0 then []
    else
      var rest := DropSeries(ss[1..], drop);
      var head := if ss[0].name in drop then [] else [ss[0]];
      assert Names(head + rest) == Names(head) + Names(rest) by {
        NamesAppend(head, rest);
      }
      head + rest
  }

  /** Dropping names no column carries keeps every column. */
  lemma {:induction false} DropSeriesNothing(ss: seq<Series>, drop: seq<string>)
    requires forall s :: s in ss ==> s.name !in drop
    ensures DropSeries(ss, drop) == ss
    decreases |ss|
  {
    if |ss| > 0 {
      DropSeriesNothing(ss[1..], drop);
      assert [ss[0]] + ss[1..] == ss;
    }
  }

  lemma DropSeriesTwice(ss: seq<Series>, drop: seq<string>)
    ensures DropSeries(DropSeries(ss, drop), drop) == DropSeries(ss, drop)
  {
    DropSeriesNothing(DropSeries(ss, drop), drop);
  }

  lemma NamesAppend(a: seq<Series>, b: seq<Series>)
    ensures Names(a + b) == Names(a) + Names(b)
  {
  }

  /** `df.drop(columns=names, errors='ignore')`: removes the named columns
      that are present and ignores the rest; every surviving column keeps its
      values and its place relative to the others. */
  function Drop(f: Frame, names: seq<string>): (g: Frame)
    requires WellFormed(f)
    ensures WellFormed(g)
    ensures g.nrows == f.nrows
    ensures forall s :: s in g.series <==> s in f.series && s.name !in names
    ensures Columns(g) == Without(Columns(f), names)
    ensures forall c :: c in names ==> c !in Columns(g)
  {
    var g := Frame(f.nrows, DropSeries(f.series, names));
    WithoutDistinct(Columns(f), names);
    WithoutMembers(Columns(f), names);
    g
  }

  /** The column named `name`, if there is one. */
  function Get(f: Frame, name: string): (r: Option<Series>)
    ensures r.None? <==> name !in Columns(f)
    ensures r.Some? ==> r.value in f.series && r.value.name == name
    decreases |f.series|
  {
    if |f.series| == 0 then None
    else if f.series[0].name == name then Some(f.series[0])
    else
      assert Columns(f) == [f.series[0].name] + Columns(Frame(f.nrows, f.series[1..]));
      Get(Frame(f.nrows, f.series[1..]), name)
  }

  /** With unique labels, the column found under a name is the only column
      of that name. */
  lemma GetUnique(f: Frame, s: Series)
    requires WellFormed(f)
    requires s in f.series
    ensures Get(f, s.name) == Some(s)
  {
    var t := Get(f, s.name).value;
    var i :| 0 <= i < |f.series| && f.series[i] == s;
    var j :| 0 <= j < |f.series| && f.series[j] == t;
    assert Columns(f)[i] == Columns(f)[j];
  }

  /** Where the first column called `name` sits. */
  function Position(ss: seq<Series>, name: string): (k: nat)
    requires name in Names(ss)
    ensures k < |ss| && ss[k].name == name
    ensures forall j :: 0 <= j < k ==> ss[j].name != name
  {
    if ss[0].name == name then 0 else 1 + Position(ss[1..], name)
  }

  /** Stores column `d`: over the column of the same name if there is one,
      otherwise at the end. */
  function Put(ss: seq<Series>, d: Series): (r: seq<Series>)
    ensures Names(r) == if d.name in Names(ss) then Names(ss) else Names(ss) + [d.name]
    ensures d in r
    ensures forall s :: s in ss && s.name != d.name ==> s in r
    ensures forall s :: s in r ==> s in ss || s == d
  {
    if d.name in Names(ss) then
      var k := Position(ss, d.name);
      var r := ss[k := d];
      assert r[k] == d;
      assert forall s :: s in ss && s.name != d.name ==> s in r by {
        forall s | s in ss && s.name != d.name
          ensures s in r
        {
          var j :| 0 <= j < |ss| && ss[j] == s;
          assert r[j] == s;
        }
      }
      r
    else
      NamesAppend(ss, [d]);
      assert (ss + [d])[|ss|] == d;
      ss + [d]
  }

  /** `df[target] = df[source].apply(fn)`: a KeyError when `source` is
      missing; otherwise the derived column replaces a column already called
      `target` in place, or is appended at the end. Rows are neither added
      nor removed, and every other column is untouched. */
  function Derive(f: Frame, source: string, target: string, fn: Cell -> Cell): (r: Result<Frame, FrameError>)
    requires WellFormed(f)
    ensures r.Failure? <==> source !in Columns(f)
    ensures r.Failure? ==> r.error == KeyError(source)
    ensures r.Success? ==> WellFormed(r.value) && r.value.nrows == f.nrows
    ensures r.Success? ==> Columns(r.value) == if target in Columns(f) then Columns(f) else Columns(f) + [target]
    ensures r.Success? ==> forall s :: s in f.series && s.name != target ==> s in r.value.series
    ensures r.Success? ==> forall s :: s in r.value.series && s.name != target ==> s in f.series
    ensures r.Success? ==>
      exists d :: (d in r.value.series && d.name == target && |d.values| == f.nrows
        && forall i :: 0 <= i < f.nrows ==> d.values[i] == fn(Get(f, source).value.values[i]))
  {
    match Get(f, source)
    case None => Failure(KeyError(source))
    case Some(src) =>
      assert |src.values| == f.nrows;
      var derived := Series(target, seq(f.nrows, i requires 0 <= i < f.nrows => fn(src.values[i])));
      var g := Frame(f.nrows, Put(f.series, derived));
      PutWellFormed(f, derived);
      assert derived in g.series;
      Success(g)
  }

  /** Storing a column of the right length keeps labels unique and columns
      of equal length. */
  lemma PutWellFormed(f: Frame, d: Series)
    requires WellFormed(f)
    requires |d.values| == f.nrows
    ensures WellFormed(Frame(f.nrows, Put(f.series, d)))
  {
    var g := Frame(f.nrows, Put(f.series, d));
    if d.name !in Columns(f) {
      assert Columns(g) == Columns(f) + [d.name];
    }
    forall k | 0 <= k < |g.series|
      ensures |g.series[k].values| == f.nrows
    {
      var s := g.series[k];
      assert s in g.series;
      if s != d {
        var j :| 0 <= j < |f.series| && f.series[j] == s;
      }
    }
  }

  function SelectSeries(f: Frame, names: seq<string>): (r: Result<seq<Series>, FrameError>)
    ensures r.Failure? <==> exists c :: c in names && c !in Columns(f)
    ensures r.Failure? ==> r.error.column in names && r.error.column !in Columns(f)
    ensures r.Success? ==> |r.value| == |names|
    ensures r.Success? ==> forall k :: 0 <= k < |names| ==> Get(f, names[k]) == Some(r.value[k])
  {
    if |names| == 0 then Success([])
    else
      match Get(f, names[0])
      case None => Failure(KeyError(names[0]))
      case Some(s) =>
        var rest :- SelectSeries(f, names[1..]);
        assert forall k :: 1 <= k < |names| ==> names[k] == names[1..][k - 1];
        Success([s] + rest)
  }

  /** `df[names]`: the named columns in the order given, each with its
      values; a KeyError when any of them is missing. */
  function Select(f: Frame, names: seq<string>): (r: Result<Frame, FrameError>)
    requires WellFormed(f)
    ensures r.Failure? <==> exists c :: c in names && c !in Columns(f)
    ensures r.Success? ==> Columns(r.value) == names && r.value.nrows == f.nrows
    ensures r.Success? ==> forall k :: 0 <= k < |names| ==> Get(f, names[k]) == Some(r.value.series[k])
    ensures r.Success? && Distinct(names) ==> WellFormed(r.value)
  {
    var ss :- SelectSeries(f, names);
    var g := Frame(f.nrows, ss);
    assert forall k :: 0 <= k < |ss| ==> ss[k] in f.series;
    Success(g)
  }
}
