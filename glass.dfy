/**
  The glass-classification plugin: the column schema of the glass data, the
  fixed three-layer network it builds, and the evaluation that runs a
  held-out row range through the trained network and tallies a report.

  The state the plugin inherits from its base class (the loaded matrices,
  the test row range, the class names, the header count and the width of an
  equilateral code) is passed in as parameters. The network's forward pass
  and the equilateral decoder are library code and are passed in as
  functions.
 */
module Glass {
  import opened Layers
  import opened Report

  // ---------------------------------------------------------------------
  // Column schema and network topology
  // ---------------------------------------------------------------------

  /** The declared type of a data column. */
  datatype ColumnType = Decimal | Nominal

  /**
    The columns of the glass data: refractive index, then the oxide contents
    of Na, Mg, Al, Si, K, Ca, Ba and Fe, then the glass classification.
   */
  const GlassDataTypes: seq<ColumnType> :=
    [Decimal, Decimal, Decimal, Decimal, Decimal, Decimal, Decimal, Decimal, Decimal, Nominal]

  /** Number of classes in the glass data; the output layer is sized for their equilateral code. */
  const GlassClassCount: nat := 6

  /** The network inputs a schema provides: every column except the final class column. */
  function FeatureCount(columnCount: nat): int
  {
    columnCount - 1
  }

  /** An equilateral code places n classes in n - 1 dimensions. */
  function CodeWidth(classCount: nat): int
  {
    classCount - 1
  }

  /**
    A topology fits a schema when every column but the last is a decimal
    feature and the last is the nominal class, the input layer has one
    neuron per feature and no activation, and the output layer has one
    neuron per dimension of the classes' equilateral code.
   */
  predicate FitsSchema(layers: seq<Layer>, types: seq<ColumnType>, classCount: nat)
  {
    |layers| >= 2 && |types| >= 1 &&
    (forall i :: 0 <= i < |types| - 1 ==> types[i] == Decimal) &&
    types[|types| - 1] == Nominal &&
    layers[0].activation == NoActivation &&
    layers[0].neuronCount == FeatureCount(|types|) &&
    layers[|layers| - 1].neuronCount == CodeWidth(classCount)
  }

  /** The layers createNetwork declares, in order: input, hidden, output. */
  function GlassTopology(): (layers: seq<Layer>)
    ensures FitsSchema(layers, GlassDataTypes, GlassClassCount)
  {
    [Layer(NoActivation, true, 9), Layer(Tanh, true, 36), Layer(Tanh, false, 5)]
  }

  /** The built network: three layers of 9, 36 and 5 neurons; bias on the first two; tanh after the input. */
  lemma GlassTopologyShape()
    ensures |GlassTopology()| == 3
    ensures GlassTopology()[0].neuronCount == 9 && GlassTopology()[1].neuronCount == 36
    ensures GlassTopology()[2].neuronCount == 5
    ensures GlassTopology()[0].hasBias && GlassTopology()[1].hasBias && !GlassTopology()[2].hasBias
    ensures GlassTopology()[0].activation == NoActivation
    ensures GlassTopology()[1].activation == Tanh && GlassTopology()[2].activation == Tanh
  {
  }

  /** Ten columns, nine decimal features and a nominal class: the feature count is the input width. */
  lemma GlassSchemaFeedsInputLayer()
    ensures |GlassDataTypes| == 10
    ensures forall i :: 0 <= i < 9 ==> GlassDataTypes[i] == Decimal
    ensures GlassDataTypes[9] == Nominal
    ensures FeatureCount(|GlassDataTypes|) == GlassTopology()[0].neuronCount == 9
    ensures CodeWidth(GlassClassCount) == GlassTopology()[2].neuronCount == 5
  {
  }

  /** Builds the network by declaring its layers one after another, then finalises it. */
  method CreateNetwork() returns (network: Network)
    ensures fresh(network)
    ensures network.layers == GlassTopology() && network.finalized
  {
    network := new Network();
    network.AddLayer(Layer(NoActivation, true, 9));
    network.AddLayer(Layer(Tanh, true, 36));
    network.AddLayer(Layer(Tanh, false, 5));
    network.FinalizeStructure();
  }

  // ---------------------------------------------------------------------
  // Evaluation inputs and outcome
  // ---------------------------------------------------------------------

  /** The loaded matrices: one feature row and one encoded-ideal row per data row. */
  datatype Dataset = Dataset(allInputs: seq<seq<real>>, allIdeals: seq<seq<real>>)

  /** The held-out row range [testStart..testEnd] and its declared size. */
  datatype TestSlice = TestSlice(testStart: int, testEnd: int, numTestRows: int)

  /** The trained network's forward pass, the equilateral decoder and the class names. */
  datatype Classifier = Classifier(
    compute: seq<real> -> seq<real>,
    decode: seq<real> -> nat,
    subtypes: seq<string>)

  /** Every decoded class index names a class. */
  ghost predicate DecodesToLabel(c: Classifier)
  {
    forall v :: c.decode(v) < |c.subtypes|
  }

  /** A failed check at the head of the evaluation. */
  datatype EvalError = NoInputs | NoIdeals | LengthMismatch

  /** The tallied report: its rows, the two counters and the printed success rate. */
  datatype TestReport = TestReport(rows: seq<ReportRow>, passCount: nat, totalCount: nat, successRate: nat)

  datatype Outcome = Completed(report: TestReport) | Aborted(error: EvalError)

  /** The three checks the evaluation makes before it copies anything. */
  predicate DataChecked(data: Dataset)
  {
    |data.allInputs| != 0 && |data.allIdeals| != 0 && |data.allInputs| == |data.allIdeals|
  }

  /** The declared slice size agrees with its bounds, and the slice starts at a row index. */
  predicate SliceBounds(slice: TestSlice)
  {
    0 <= slice.testStart <= slice.testEnd + 1 &&
    slice.numTestRows == slice.testEnd - slice.testStart + 1
  }

  /**
    The slice lies inside both matrices, and every row in it has at least
    numCols features and codeWidth ideal values.
   */
  predicate SliceFits(data: Dataset, slice: TestSlice, numCols: int, codeWidth: nat)
  {
    0 <= slice.testStart && 0 <= numCols &&
    slice.testEnd < |data.allInputs| && slice.testEnd < |data.allIdeals| &&
    (forall i :: slice.testStart <= i <= slice.testEnd ==> numCols <= |data.allInputs[i]|) &&
    (forall i :: slice.testStart <= i <= slice.testEnd ==> codeWidth <= |data.allIdeals[i]|)
  }

  /**
    What the evaluation needs of its caller: a well-formed slice, a header
    for the class column, decoded indices that name classes, and, once the
    data passes the three checks, a slice that fits the data.
   */
  ghost predicate Admissible(data: Dataset, slice: TestSlice, headerCount: nat, codeWidth: nat, c: Classifier)
  {
    SliceBounds(slice) && headerCount >= 1 && DecodesToLabel(c) &&
    (DataChecked(data) ==> SliceFits(data, slice, FeatureCount(headerCount), codeWidth))
  }

  // ---------------------------------------------------------------------
  // Specification of the evaluation
  // ---------------------------------------------------------------------

  /** One row of the testing set: a feature row and its encoded ideal. */
  datatype DataPair = DataPair(input: seq<real>, ideal: seq<real>)

  /**
    The testing set: data rows testStart..testEnd in order, each feature row
    cut to numCols values and each ideal row to codeWidth values.
   */
  function TestingSet(data: Dataset, slice: TestSlice, numCols: nat, codeWidth: nat): seq<DataPair>
    requires SliceBounds(slice) && SliceFits(data, slice, numCols, codeWidth)
  {
    seq(slice.numTestRows, r requires 0 <= r < slice.numTestRows =>
      DataPair(data.allInputs[slice.testStart + r][..numCols], data.allIdeals[slice.testStart + r][..codeWidth]))
  }

  /** One report row: decode the network's output and the ideal, name both classes, compare the names. */
  function Classify(c: Classifier, pair: DataPair, rowNumber: int): ReportRow
    requires DecodesToLabel(c)
  {
    var actual := c.subtypes[c.decode(pair.ideal)];
    var predicted := c.subtypes[c.decode(c.compute(pair.input))];
    ReportRow(rowNumber, actual, predicted, predicted == actual)
  }

  /** Distinct class names: no two class indices share a label. */
  predicate DistinctLabels(subtypes: seq<string>)
  {
    forall i, j :: 0 <= i < j < |subtypes| ==> subtypes[i] != subtypes[j]
  }

  /**
    A row passes when the labels agree; with distinct class names that is
    exactly when the predicted and actual class indices agree.
   */
  lemma PassedIffSameClass(c: Classifier, pair: DataPair, rowNumber: int)
    requires DecodesToLabel(c) && DistinctLabels(c.subtypes)
    ensures Classify(c, pair, rowNumber).passed <==> c.decode(c.compute(pair.input)) == c.decode(pair.ideal)
  {
    var p, a := c.decode(c.compute(pair.input)), c.decode(pair.ideal);
    if p < a {
      assert c.subtypes[p] != c.subtypes[a];
    } else if a < p {
      assert c.subtypes[a] != c.subtypes[p];
    }
  }

  /** The report rows for a testing set, numbered from testStart + 1 in order. */
  function ReportRows(c: Classifier, pairs: seq<DataPair>, testStart: int): seq<ReportRow>
    requires DecodesToLabel(c)
  {
    if |pairs| == 0 then []
    else
      var n := |pairs| - 1;
      ReportRows(c, pairs[..n], testStart) + [Classify(c, pairs[n], testStart + n + 1)]
  }

  /** One row per pair, in order: the k-th (0-based) row classifies pair k and is numbered testStart + k + 1. */
  lemma {:induction false} ReportRowsAt(c: Classifier, pairs: seq<DataPair>, testStart: int)
    requires DecodesToLabel(c)
    ensures |ReportRows(c, pairs, testStart)| == |pairs|
    ensures forall k :: 0 <= k < |pairs| ==>
      ReportRows(c, pairs, testStart)[k] == Classify(c, pairs[k], testStart + k + 1)
  {
    if |pairs| > 0 {
      var n := |pairs| - 1;
      ReportRowsAt(c, pairs[..n], testStart);
      forall k | 0 <= k < n
        ensures ReportRows(c, pairs, testStart)[k] == Classify(c, pairs[k], testStart + k + 1)
      {
        assert pairs[..n][k] == pairs[k];
      }
    }
  }

  /** The evaluation: the three checks, then the report over the testing set. */
  function Evaluate(data: Dataset, slice: TestSlice, headerCount: nat, codeWidth: nat, c: Classifier): Outcome
    requires Admissible(data, slice, headerCount, codeWidth, c)
  {
    if |data.allInputs| == 0 then Aborted(NoInputs)
    else if |data.allIdeals| == 0 then Aborted(NoIdeals)
    else if |data.allInputs| != |data.allIdeals| then Aborted(LengthMismatch)
    else
      var rows := ReportRows(c, TestingSet(data, slice, FeatureCount(headerCount), codeWidth), slice.testStart);
      var passCount := CountPassed(rows);
      Completed(TestReport(rows, passCount, |rows|, SuccessRate(passCount, |rows|)))
  }

  /**
    The evaluation aborts exactly when one of the three checks fails, and
    then with the first failing check's error.
   */
  lemma EvaluateAbortsIff(data: Dataset, slice: TestSlice, headerCount: nat, codeWidth: nat, c: Classifier)
    requires Admissible(data, slice, headerCount, codeWidth, c)
    ensures Evaluate(data, slice, headerCount, codeWidth, c).Aborted? <==> !DataChecked(data)
    ensures |data.allInputs| == 0 ==> Evaluate(data, slice, headerCount, codeWidth, c) == Aborted(NoInputs)
    ensures |data.allInputs| != 0 && |data.allIdeals| == 0 ==>
      Evaluate(data, slice, headerCount, codeWidth, c) == Aborted(NoIdeals)
    ensures |data.allInputs| != 0 && |data.allIdeals| != 0 && |data.allInputs| != |data.allIdeals| ==>
      Evaluate(data, slice, headerCount, codeWidth, c) == Aborted(LengthMismatch)
  {
  }

  /**
    A completed report has one row per slice row, in slice order: row k is
    numbered testStart + k + 1 and compares the class decoded from the
    network's output for data row testStart + k with the class decoded from
    that row's ideal.
   */
  lemma EvaluateRows(data: Dataset, slice: TestSlice, headerCount: nat, codeWidth: nat, c: Classifier)
    requires Admissible(data, slice, headerCount, codeWidth, c) && DataChecked(data)
    ensures Evaluate(data, slice, headerCount, codeWidth, c).Completed?
    ensures var r := Evaluate(data, slice, headerCount, codeWidth, c).report;
      |r.rows| == r.totalCount == slice.numTestRows &&
      (forall k :: 0 <= k < |r.rows| ==> r.rows[k].rowNumber == slice.testStart + k + 1) &&
      (forall k :: 0 <= k < |r.rows| ==>
         r.rows[k] == Classify(c, DataPair(data.allInputs[slice.testStart + k][..FeatureCount(headerCount)],
                                           data.allIdeals[slice.testStart + k][..codeWidth]),
                               slice.testStart + k + 1))
  {
    var pairs := TestingSet(data, slice, FeatureCount(headerCount), codeWidth);
    var rows := ReportRows(c, pairs, slice.testStart);
    ReportRowsAt(c, pairs, slice.testStart);
    assert Evaluate(data, slice, headerCount, codeWidth, c).report.rows == rows;
    forall k | 0 <= k < |rows|
      ensures rows[k] == Classify(c, DataPair(data.allInputs[slice.testStart + k][..FeatureCount(headerCount)],
                                              data.allIdeals[slice.testStart + k][..codeWidth]),
                                  slice.testStart + k + 1)
    {
      assert pairs[k] == DataPair(data.allInputs[slice.testStart + k][..FeatureCount(headerCount)],
                                  data.allIdeals[slice.testStart + k][..codeWidth]);
    }
  }

  /**
    In a completed report the pass count is the number of passed rows, at
    most the total; total minus passed is the number of failed rows; all
    rows pass exactly when the counts agree and none does exactly when the
    pass count is zero; the success rate is the truncated percentage.
   */
  lemma EvaluateCounts(data: Dataset, slice: TestSlice, headerCount: nat, codeWidth: nat, c: Classifier)
    requires Admissible(data, slice, headerCount, codeWidth, c) && DataChecked(data)
    ensures Evaluate(data, slice, headerCount, codeWidth, c).Completed?
    ensures var r := Evaluate(data, slice, headerCount, codeWidth, c).report;
      r.passCount == CountPassed(r.rows) && r.totalCount == |r.rows| &&
      r.passCount <= r.totalCount &&
      r.totalCount - r.passCount == CountFailed(r.rows) &&
      (r.passCount == r.totalCount <==> forall k :: 0 <= k < |r.rows| ==> r.rows[k].passed) &&
      (r.passCount == 0 <==> forall k :: 0 <= k < |r.rows| ==> !r.rows[k].passed) &&
      r.successRate == SuccessRate(r.passCount, r.totalCount) && r.successRate <= 100
  {
    var rows := Evaluate(data, slice, headerCount, codeWidth, c).report.rows;
    PassedPlusFailed(rows);
    AllPassedIff(rows);
    NonePassedIff(rows);
    if |rows| > 0 {
      SuccessRateTruncates(CountPassed(rows), |rows|);
    }
  }

  /**
    A network that reproduces the ideal row of every slice row passes every
    row and scores 100%.
   */
  lemma PerfectNetworkScoresFull(data: Dataset, slice: TestSlice, headerCount: nat, codeWidth: nat, c: Classifier)
    requires Admissible(data, slice, headerCount, codeWidth, c) && DataChecked(data)
    requires slice.numTestRows > 0
    requires forall i :: slice.testStart <= i <= slice.testEnd ==>
      c.compute(data.allInputs[i][..FeatureCount(headerCount)]) == data.allIdeals[i][..codeWidth]
    ensures var r := Evaluate(data, slice, headerCount, codeWidth, c).report;
      r.passCount == r.totalCount == slice.numTestRows && r.successRate == 100
  {
    EvaluateRows(data, slice, headerCount, codeWidth, c);
    EvaluateCounts(data, slice, headerCount, codeWidth, c);
    var r := Evaluate(data, slice, headerCount, codeWidth, c).report;
    forall k | 0 <= k < |r.rows| ensures r.rows[k].passed {
      var i := slice.testStart + k;
      assert c.compute(data.allInputs[i][..FeatureCount(headerCount)]) == data.allIdeals[i][..codeWidth];
    }
    SuccessRateExtremes(r.passCount, r.totalCount);
  }

  /** An empty slice completes with no rows and prints 0%: 0.0 / 0.0 is NaN, which casts to 0. */
  lemma EmptySliceScoresZero(data: Dataset, slice: TestSlice, headerCount: nat, codeWidth: nat, c: Classifier)
    requires Admissible(data, slice, headerCount, codeWidth, c) && DataChecked(data)
    requires slice.numTestRows == 0
    ensures Evaluate(data, slice, headerCount, codeWidth, c) == Completed(TestReport([], 0, 0, 0))
  {
  }

  // ---------------------------------------------------------------------
  // The evaluation as the plugin runs it
  // ---------------------------------------------------------------------

  /**
    Copies rows testStart..testEnd of a matrix, cut to numCols values, into
    a fresh numTestRows x numCols block, each row shifted down by testStart.
   */
  method CopySlice(all: seq<seq<real>>, testStart: int, testEnd: int, numTestRows: int, numCols: int)
    returns (block: array2<real>)
    requires 0 <= testStart && 0 <= numCols && numTestRows == testEnd - testStart + 1 >= 0
    requires testEnd < |all|
    requires forall i :: testStart <= i <= testEnd ==> numCols <= |all[i]|
    ensures fresh(block)
    ensures block.Length0 == numTestRows && block.Length1 == numCols
    ensures forall r, col :: 0 <= r < numTestRows && 0 <= col < numCols ==> block[r, col] == all[testStart + r][col]
  {
    block := new real[numTestRows, numCols];
    var row := testStart;
    while row <= testEnd
      invariant testStart <= row <= testEnd + 1
      invariant forall r, col :: 0 <= r < row - testStart && 0 <= col < numCols ==>
        block[r, col] == all[testStart + r][col]
    {
      var col := 0;
      while col < numCols
        invariant 0 <= col <= numCols
        invariant forall r, col' :: 0 <= r < row - testStart && 0 <= col' < numCols ==>
          block[r, col'] == all[testStart + r][col']
        invariant forall col' :: 0 <= col' < col ==> block[row - testStart, col'] == all[row][col']
      {
        block[row - testStart, col] := all[row][col];
        col := col + 1;
      }
      row := row + 1;
    }
  }

  /** Row r of a block. */
  function RowOf(block: array2<real>, r: int): seq<real>
    reads block
    requires 0 <= r < block.Length0
  {
    seq(block.Length1, col requires 0 <= col < block.Length1 reads block => block[r, col])
  }

  /** A row of a block filled by CopySlice is the data row it was copied from, cut to the block's width. */
  lemma BlockRowIsDataRow(block: array2<real>, all: seq<seq<real>>, start: nat, width: nat, r: nat)
    requires r < block.Length0 && block.Length1 == width
    requires start + r < |all| && width <= |all[start + r]|
    requires forall col :: 0 <= col < width ==> block[r, col] == all[start + r][col]
    ensures RowOf(block, r) == all[start + r][..width]
  {
    var row, want := RowOf(block, r), all[start + r][..width];
    assert |row| == width == |want|;
    forall col | 0 <= col < width ensures row[col] == want[col] {
      assert row[col] == block[r, col];
    }
  }

  /** The data set built from the two blocks: row r of each, paired, in row order. */
  function DataPairs(inputs: array2<real>, ideals: array2<real>): seq<DataPair>
    reads inputs, ideals
    requires inputs.Length0 == ideals.Length0
  {
    seq(inputs.Length0, r requires 0 <= r < inputs.Length0 reads inputs, ideals =>
      DataPair(RowOf(inputs, r), RowOf(ideals, r)))
  }

  /**
    Pairing the two blocks CopySlice fills gives the testing set: pair r is
    data row testStart + r of the inputs, cut to numCols values, with data
    row testStart + r of the ideals, cut to codeWidth values.
   */
  lemma CopiedPairsAreTestingSet(data: Dataset, slice: TestSlice, numCols: nat, codeWidth: nat,
                                 inputs: array2<real>, ideals: array2<real>)
    requires SliceBounds(slice) && SliceFits(data, slice, numCols, codeWidth)
    requires inputs.Length0 == ideals.Length0 == slice.numTestRows
    requires inputs.Length1 == numCols && ideals.Length1 == codeWidth
    requires forall r, col :: 0 <= r < slice.numTestRows && 0 <= col < numCols ==>
      inputs[r, col] == data.allInputs[slice.testStart + r][col]
    requires forall r, col :: 0 <= r < slice.numTestRows && 0 <= col < codeWidth ==>
      ideals[r, col] == data.allIdeals[slice.testStart + r][col]
    ensures DataPairs(inputs, ideals) == TestingSet(data, slice, numCols, codeWidth)
  {
    var pairs, expected := DataPairs(inputs, ideals), TestingSet(data, slice, numCols, codeWidth);
    forall r | 0 <= r < slice.numTestRows ensures pairs[r] == expected[r] {
      BlockRowIsDataRow(inputs, data.allInputs, slice.testStart, numCols, r);
      BlockRowIsDataRow(ideals, data.allIdeals, slice.testStart, codeWidth, r);
    }
  }

  /**
    Runs each pair of the testing set through the network in order:
    decodes the predicted and the actual class, names both, counts the row
    and, when the names agree, the pass, and numbers the report row
    testStart + totalCount. The rows are the specified report rows, the
    counters their size and number of passes.
   */
  method RunTestingSet(c: Classifier, testingSet: seq<DataPair>, testStart: int)
    returns (rows: seq<ReportRow>, passCount: nat, totalCount: nat)
    requires DecodesToLabel(c)
    ensures rows == ReportRows(c, testingSet, testStart)
    ensures totalCount == |testingSet| && passCount == CountPassed(rows)
  {
    totalCount, passCount := 0, 0;
    rows := [];
    for i := 0 to |testingSet|
      invariant totalCount == i
      invariant rows == ReportRows(c, testingSet[..i], testStart)
      invariant passCount == CountPassed(rows)
    {
      var dataPair := testingSet[i];
      var outputData := c.compute(dataPair.input);
      var predictedIndex := c.decode(outputData);
      var actualIndex := c.decode(dataPair.ideal);
      var actualData := c.subtypes[actualIndex];
      var predictedData := c.subtypes[predictedIndex];

      totalCount := totalCount + 1;
      var passed: bool;
      if predictedData == actualData {
        passCount := passCount + 1;
        passed := true;
      } else {
        passed := false;
      }
      var row := ReportRow(testStart + totalCount, actualData, predictedData, passed);
      CountAppend(rows, row);
      assert testingSet[..i + 1][..i] == testingSet[..i];
      rows := rows + [row];
    }
    assert testingSet[..|testingSet|] == testingSet;
  }

  /**
    Checks the data, copies the test slice into fresh input and ideal
    blocks, pairs their rows into the testing set, runs the testing set and
    reports the counters and the success rate.
   */
  method TestNetwork(data: Dataset, slice: TestSlice, headerCount: nat, codeWidth: nat, c: Classifier)
    returns (outcome: Outcome)
    requires Admissible(data, slice, headerCount, codeWidth, c)
    ensures outcome == Evaluate(data, slice, headerCount, codeWidth, c)
  {
    if |data.allInputs| == 0 {
      return Aborted(NoInputs);
    }
    if |data.allIdeals| == 0 {
      return Aborted(NoIdeals);
    }
    if |data.allInputs| != |data.allIdeals| {
      return Aborted(LengthMismatch);
    }

    var numCols := FeatureCount(headerCount);
    var testInputs := CopySlice(data.allInputs, slice.testStart, slice.testEnd, slice.numTestRows, numCols);
    numCols := codeWidth;
    var testIdeals := CopySlice(data.allIdeals, slice.testStart, slice.testEnd, slice.numTestRows, numCols);

    var testingSet := DataPairs(testInputs, testIdeals);
    CopiedPairsAreTestingSet(data, slice, FeatureCount(headerCount), codeWidth, testInputs, testIdeals);

    ReportRowsAt(c, testingSet, slice.testStart);

    var rows, passCount, totalCount := RunTestingSet(c, testingSet, slice.testStart);
    outcome := Completed(TestReport(rows, passCount, totalCount, SuccessRate(passCount, totalCount)));
  }
}
