/**
 * src/train.py: which pipeline each task gets, and the texts and labels a
 * pipeline is fitted and evaluated on. The learning itself (TF-IDF,
 * LinearSVC, LogisticRegression) is a library call; its stages are only
 * configuration records here.
 */
module Train {
  import opened Wrappers
  import opened TextPrimitives
  import opened Frame
  import Utils

  /** `build_text`: one cleaned model input per row. */
  function BuildText(u: Tables, rows: seq<ReviewText>): (texts: seq<string>)
    ensures |texts| == |rows|
    ensures forall i :: 0 <= i < |rows| ==> texts[i] == Utils.BasicClean(u, Combined(rows[i]))
  {
    if rows == [] then [] else [Utils.BasicClean(u, Combined(rows[0]))] + BuildText(u, rows[1..])
  }

  /**
   * The words of a row's model input are the tokens of its title followed by
   * the tokens of its body; a missing cell contributes none.
   */
  lemma {:induction false} BuildTextTokens(u: Tables, row: ReviewText)
    ensures Split(u, Utils.BasicClean(u, Combined(row))) ==
      Runs(u, Disallowed, Lower(u, row.title.GetOr(""))) + Runs(u, Disallowed, Lower(u, row.body.GetOr("")))
  {
    var t, b := row.title.GetOr(""), row.body.GetOr("");
    var ws := Runs(u, Disallowed, Lower(u, Combined(row)));
    assert ws == Runs(u, Disallowed, Lower(u, t)) + Runs(u, Disallowed, Lower(u, b)) by {
      LowerAroundSpace(u, t, b);
      RunsSeparated(u, Disallowed, Lower(u, t), ' ', Lower(u, b));
    }
    assert Split(u, Join(ws)) == ws by {
      assert forall k :: 0 <= k < |ws| ==> IsToken(u, Whitespace, ws[k]);
      RunsJoin(u, Whitespace, ws);
    }
    Utils.BasicCleanTokens(u, Combined(row));
  }

  /** A cell missing from in front of `x` leaves the words of `x` alone. */
  lemma {:induction false} BlankInFront(u: Tables, x: string)
    ensures Utils.BasicClean(u, "" + " " + x) == Utils.BasicClean(u, x)
  {
    Utils.BasicCleanTokens(u, "" + " " + x);
    Utils.BasicCleanTokens(u, x);
    LowerAroundSpace(u, "", x);
    assert Lower(u, "") == "";
    RunsSeparated(u, Disallowed, [], ' ', Lower(u, x));
    assert [] + [' '] + Lower(u, x) == Lower(u, "") + " " + Lower(u, x);
  }

  /** A cell missing from behind `x` leaves the words of `x` alone. */
  lemma {:induction false} BlankBehind(u: Tables, x: string)
    ensures Utils.BasicClean(u, x + " " + "") == Utils.BasicClean(u, x)
  {
    var y := x + " " + "";
    var l := Lower(u, x);
    Utils.BasicCleanTokens(u, y);
    Utils.BasicCleanTokens(u, x);
    assert Lower(u, y) == l + [' '] + [] by {
      LowerAroundSpace(u, x, "");
      assert Lower(u, "") == [];
    }
    assert Runs(u, Disallowed, l + [' '] + []) == Runs(u, Disallowed, l) by {
      RunsSeparated(u, Disallowed, l, ' ', []);
      assert Runs(u, Disallowed, []) == [];
    }
  }

  /** A missing title or body leaves exactly the cleaned other cell. */
  lemma MissingCell(u: Tables, row: ReviewText)
    ensures row.title.None? ==> Utils.BasicClean(u, Combined(row)) == Utils.BasicClean(u, row.body.GetOr(""))
    ensures row.body.None? ==> Utils.BasicClean(u, Combined(row)) == Utils.BasicClean(u, row.title.GetOr(""))
  {
    if row.title.None? {
      BlankInFront(u, row.body.GetOr(""));
    }
    if row.body.None? {
      BlankBehind(u, row.title.GetOr(""));
    }
  }

  // ---------------------------------------------------------------------------
  // Pipelines

  /** The configuration of one pipeline stage; defaults of the library are not repeated. */
  datatype Stage =
    | TfidfVectorizer(ngramRange: (nat, nat), analyzer: string, minDf: nat)
    | LinearSVC
    | LogisticRegression(maxIter: nat)

  /** Named stages, applied in order. */
  datatype Pipeline = Pipeline(steps: seq<(string, Stage)>)

  datatype Error = ValueError(message: string)

  /** Unigrams and bigrams of words, dropping terms seen in fewer than two documents. */
  const Vectorizer: Stage := TfidfVectorizer((1, 2), "word", 2)

  /** `make_pipeline`: the pipeline for a task, or the error it raises. */
  function MakePipeline(task: string): (r: Result<Pipeline, Error>)
    ensures r.Failure? <==> task != "department" && task != "sentiment"
    ensures r.Failure? ==> r.error == ValueError("Unknown task")
    ensures r.Success? ==>
      && |r.value.steps| == 2
      && r.value.steps[0] == ("vectorizer", TfidfVectorizer((1, 2), "word", 2))
      && r.value.steps[1].0 == "classifier"
    ensures task == "department" ==> r.Success? && r.value.steps[1].1 == LinearSVC
    ensures task == "sentiment" ==> r.Success? && r.value.steps[1].1 == LogisticRegression(200)
  {
    if task == "department" then Success(Pipeline([("vectorizer", Vectorizer), ("classifier", LinearSVC)]))
    else if task == "sentiment" then Success(Pipeline([("vectorizer", Vectorizer), ("classifier", LogisticRegression(200))]))
    else Failure(ValueError("Unknown task"))
  }

  /** Both tasks share one feature stage and differ only in the classifier. */
  lemma SharedVectorizer()
    ensures MakePipeline("department").value.steps[0] == MakePipeline("sentiment").value.steps[0]
    ensures MakePipeline("department").value.steps[1] != MakePipeline("sentiment").value.steps[1]
  {
  }

  // ---------------------------------------------------------------------------
  // What train_model hands to fit, predict and the report

  /** A labelled row of the dataset. */
  datatype LabeledReview = LabeledReview(text: ReviewText, department: string, sentiment: string)

  /** `df[y_col]` for one row, for the two label columns. */
  function LabelColumn(row: LabeledReview, yCol: string): string
    requires yCol == "department" || yCol == "sentiment"
  {
    if yCol == "department" then row.department else row.sentiment
  }

  /** The inputs of `pipe.fit`, `pipe.predict` and `classification_report`. */
  datatype FitJob = FitJob(pipeline: Pipeline, trainTexts: seq<string>, trainLabels: seq<string>,
                           testTexts: seq<string>, testLabels: seq<string>)

  function Texts(rows: seq<LabeledReview>): (r: seq<ReviewText>)
    ensures |r| == |rows| && forall i :: 0 <= i < |rows| ==> r[i] == rows[i].text
  {
    seq(|rows|, i requires 0 <= i < |rows| => rows[i].text)
  }

  function Labels(rows: seq<LabeledReview>, yCol: string): (r: seq<string>)
    requires yCol == "department" || yCol == "sentiment"
    ensures |r| == |rows| && forall i :: 0 <= i < |rows| ==> r[i] == LabelColumn(rows[i], yCol)
  {
    seq(|rows|, i requires 0 <= i < |rows| => LabelColumn(rows[i], yCol))
  }

  /**
   * `train_model` after the split: the label column is the task, so any
   * column but the two label columns fails with the unknown-task error;
   * otherwise texts and labels line up row for row.
   */
  function TrainModel(u: Tables, train: seq<LabeledReview>, test: seq<LabeledReview>, yCol: string): (r: Result<FitJob, Error>)
    ensures r.Failure? <==> yCol != "department" && yCol != "sentiment"
    ensures r.Failure? ==> r.error == ValueError("Unknown task")
    ensures r.Success? ==> MakePipeline(yCol) == Success(r.value.pipeline)
    ensures r.Success? ==>
      && |r.value.trainTexts| == |r.value.trainLabels| == |train|
      && |r.value.testTexts| == |r.value.testLabels| == |test|
    ensures r.Success? ==> forall i :: 0 <= i < |train| ==> r.value.trainTexts[i] == Utils.BasicClean(u, Combined(train[i].text))
    ensures r.Success? ==> forall i :: 0 <= i < |train| ==> r.value.trainLabels[i] == LabelColumn(train[i], yCol)
    ensures r.Success? ==> forall i :: 0 <= i < |test| ==> r.value.testTexts[i] == Utils.BasicClean(u, Combined(test[i].text))
    ensures r.Success? ==> forall i :: 0 <= i < |test| ==> r.value.testLabels[i] == LabelColumn(test[i], yCol)
  {
    match MakePipeline(yCol)
    case Failure(e) => Failure(e)
    case Success(pipe) =>
      var trainRows, testRows := Texts(train), Texts(test);
      Success(FitJob(pipe, BuildText(u, trainRows), Labels(train, yCol),
                     BuildText(u, testRows), Labels(test, yCol)))
  }
}
