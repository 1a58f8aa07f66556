/** Turning the pipeline's raw prediction into the price-range text the page
    shows: an integer is used as an index into the bucket list (with Python's
    negative indexing, falling back to the number itself when the index is
    out of range); anything else is shown as it is. */
module Labels {
  import opened Wrappers
  import opened PyText

  /** The first element of what `predict` returns: an integer class index or
      a class label that is already text. */
  datatype Prediction = IntPred(i: int) | StrPred(s: string)

  /** The eight price-per-area buckets, in millions of dong. */
  const ClassNames: seq<string> :=
    ["1-60", "61-70", "71-80", "81-90", "91-100", "101-200", "201-300", "301-1000"]

  /** Python `xs[i]`: negative indices count from the end; an index outside
      `-len(xs) .. len(xs) - 1` raises IndexError, modelled as None. */
  function PyIndex<T>(xs: seq<T>, i: int): (r: Option<T>)
    ensures r.Some? <==> -|xs| <= i < |xs|
    ensures r.Some? ==> r.value == xs[i % |xs|]
  {
    if 0 <= i < |xs| then Some(xs[i])
    else if -|xs| <= i < 0 then Some(xs[|xs| + i])
    else None
  }

  /** The label shown for a raw prediction. An in-range integer gives a
      bucket name (so exactly those integers give one), an out-of-range
      integer gives exactly `str(i)`, which reads back as the same integer,
      and a text prediction is shown verbatim. */
  function FinalLabel(p: Prediction): (shown: string)
    ensures p.StrPred? ==> shown == p.s
    ensures p.IntPred? ==> (shown in ClassNames <==> -8 <= p.i < 8)
    ensures p.IntPred? && -8 <= p.i < 8 ==> shown == ClassNames[p.i % 8]
    ensures p.IntPred? && !(-8 <= p.i < 8) ==> shown == IntToString(p.i)
    ensures p.IntPred? && !(-8 <= p.i < 8) ==> ParseInt(shown) == Some(p.i)
  {
    match p
    case IntPred(i) =>
      (match PyIndex(ClassNames, i)
       case Some(name) => name
       case None =>
         NumberIsNoClassName(i);
         IntRoundTrip(i);
         IntToString(i))
    case StrPred(s) => s
  }

  /** Every bucket name has a dash after its first character, where the
      decimal text of an integer has only digits; so printing an integer
      never produces a bucket name. */
  lemma NumberIsNoClassName(i: int)
    ensures IntToString(i) !in ClassNames
  {
    var s := IntToString(i);
    forall j | 0 <= j < |ClassNames|
      ensures s != ClassNames[j]
    {
      var c := ClassNames[j];
      var k := if j == 0 then 1 else if j < 5 then 2 else 3;
      assert 1 <= k < |c| && c[k] == '-';
      if |s| == |c| {
        assert IsDigit(s[k]);
      }
    }
  }

  lemma ClassNamesDistinct()
    ensures forall j, k :: 0 <= j < k < |ClassNames| ==> ClassNames[j] != ClassNames[k]
  {
  }

  /** A negative index names the same bucket as that index plus eight; in
      particular -1 names the last bucket. */
  lemma NegativeIndexAliases(i: int)
    requires 0 <= i < 8
    ensures FinalLabel(IntPred(i - 8)) == FinalLabel(IntPred(i)) == ClassNames[i]
    ensures FinalLabel(IntPred(-1)) == "301-1000"
  {
  }

  /** The bucket label of an in-range integer identifies the integer up to
      Python's negative aliasing: the only bucket positions holding that
      label are the one the index names. */
  lemma LabelIdentifiesIndex(i: int, j: nat)
    requires -8 <= i < 8
    requires j < |ClassNames| && ClassNames[j] == FinalLabel(IntPred(i))
    ensures j == i % 8
    ensures i == j || i == j - 8
  {
    ClassNamesDistinct();
  }

  /** Two integer predictions give the same label exactly when they name the
      same bucket or are the same out-of-range number. */
  lemma IntLabelsEqual(i: int, j: int)
    ensures FinalLabel(IntPred(i)) == FinalLabel(IntPred(j)) <==>
      (if -8 <= i < 8 && -8 <= j < 8 then i % 8 == j % 8 else i == j)
  {
    ClassNamesDistinct();
    var a, b := FinalLabel(IntPred(i)), FinalLabel(IntPred(j));
    if a == b && !(-8 <= i < 8) && !(-8 <= j < 8) {
      assert ParseInt(a) == Some(i) && ParseInt(b) == Some(j);
    }
  }
}
