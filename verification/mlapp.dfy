/** One run of the prediction page: locate the pipeline, build the record
    from the sidebar choices, ask the pipeline for a prediction and turn it
    into the label shown. Loading the pickle and the classifier itself are
    outside the model: `infer` stands for `predict` and `predict_proba`
    together, failing with the message of whatever exception they raise. */
module MlApp {
  import opened Wrappers
  import opened PyText
  import opened Domains
  import opened Region
  import opened Cells
  import opened Record
  import opened Labels
  import opened ModelPath
  import Frame
  import Features

  /** How a run ends: an error message and early return because the
      pipeline file is missing, an error message because prediction raised,
      or the record and the label on screen. */
  datatype Outcome =
    | PipelineMissing
    | PredictionFailed(message: string)
    | Shown(modelPath: Path, record: Row, prediction: Prediction, shown: string)

  /** `get_reference_processed`: the same columns removed as in the offline
      script, absent ones ignored, rows kept. The page defines this loader
      but never calls it, so nothing the page shows depends on it. */
  function ReferenceProcessed(f: Frame.Frame): (g: Frame.Frame)
    requires Frame.WellFormed(f)
    ensures Frame.WellFormed(g) && g.nrows == f.nrows
    ensures forall c :: c in Features.DroppedColumns ==> c !in Frame.Columns(g)
    ensures forall c :: c !in Features.DroppedColumns ==> (c in Frame.Columns(g) <==> c in Frame.Columns(f))
    ensures forall s :: s in g.series <==> s in f.series && s.name !in Features.DroppedColumns
  {
    var g := Frame.Drop(f, Features.DroppedColumns);
    Frame.WithoutMembers(Frame.Columns(f), Features.DroppedColumns);
    g
  }

  /** Applying the loader's drop a second time changes nothing. */
  lemma ReferenceProcessedTwice(f: Frame.Frame)
    requires Frame.WellFormed(f)
    ensures ReferenceProcessed(ReferenceProcessed(f)) == ReferenceProcessed(f)
  {
    Frame.WithoutTwice(Frame.Columns(f), Features.DroppedColumns);
    Frame.DropSeriesTwice(f.series, Features.DroppedColumns);
  }

  function RunMlApp(x: RawInput, base: Path, pathExists: Path -> bool,
                    infer: (Path, Row) -> Result<Prediction, string>): (o: Outcome)
    requires ValidInput(x)
    ensures o.PipelineMissing? <==> ResolvePipelinePath(base, pathExists).Failure?
    ensures !o.PipelineMissing? ==> ParseNat(x.month).Some?
    ensures o.PredictionFailed? ==>
      exists p :: ResolvePipelinePath(base, pathExists) == Success(p) && infer(p, BuildRecord(x)) == Failure(o.message)
    ensures o.Shown? ==>
      && ResolvePipelinePath(base, pathExists) == Success(o.modelPath)
      && o.record == BuildRecord(x)
      && infer(o.modelPath, o.record) == Success(o.prediction)
      && o.shown == FinalLabel(o.prediction)
  {
    match ResolvePipelinePath(base, pathExists)
    case Failure(_) => PipelineMissing
    case Success(p) =>
      MonthChoiceParses(x.month);
      var row := BuildRecord(x);
      match infer(p, row)
      case Failure(e) => PredictionFailed(e)
      case Success(pred) => Shown(p, row, pred, FinalLabel(pred))
  }

  /** The run reaches the classifier exactly when the pipeline file was
      found, and whatever the classifier answers, a shown record carries the
      serving page's Region flag for the chosen district, the fixed ward and
      a month between 1 and 12. */
  lemma ShownRecordFacts(x: RawInput, base: Path, pathExists: Path -> bool,
                         infer: (Path, Row) -> Result<Prediction, string>)
    requires ValidInput(x)
    requires RunMlApp(x, base, pathExists, infer).Shown?
    ensures var r := RunMlApp(x, base, pathExists, infer).record;
      && Lookup(r, "Region") == Some(Int(if x.district in ServingUrban then 1 else 0))
      && Lookup(r, "Ward") == Some(Text(DefaultWard))
      && (exists m :: 1 <= m <= 12 && Lookup(r, "Month") == Some(Int(m)))
  {
    RecordInDomain(x);
    RecordCells(x);
  }

  /** When the file is found and the classifier answers with an integer,
      the page shows a bucket name exactly when the integer is a valid
      Python index into the eight buckets. */
  lemma ShownBucket(x: RawInput, base: Path, pathExists: Path -> bool,
                    infer: (Path, Row) -> Result<Prediction, string>, i: int)
    requires ValidInput(x)
    requires ResolvePipelinePath(base, pathExists).Success?
    requires ParseNat(x.month).Some?
    requires infer(ResolvePipelinePath(base, pathExists).value, BuildRecord(x)) == Success(IntPred(i))
    ensures RunMlApp(x, base, pathExists, infer).Shown?
    ensures RunMlApp(x, base, pathExists, infer).shown in ClassNames <==> -8 <= i < 8
  {
  }
}
