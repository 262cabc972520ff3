# Glass classification plugin: network topology and test evaluation

This project models the glass-classification plugin of an Encog-based
neural-network trainer. The plugin does two things:

- **createNetwork** declares a fixed three-layer feedforward network. The
  input layer has 9 neurons, bias and no activation. The hidden layer has
  36 neurons, bias and tanh. The output layer has 5 neurons, tanh and no
  bias. The 5 outputs are the dimensions of an equilateral code for the
  6 glass classes.
- **testNetwork** checks the loaded input and ideal matrices. It copies
  the held-out rows `testStart..testEnd` into fresh dense blocks, shifting
  each row down by `testStart`, and pairs the two blocks into a testing set.
  Then, row by row in order, it runs the network, decodes the predicted
  and the actual class, names both through the class-name list and
  compares the names. It counts rows and passes and numbers each report
  row `testStart + totalCount`. At the end it prints the pass and fail
  counts and a truncated success percentage.

Modules:

- `Layers` (`layers.dfy`): the layer descriptor (activation, bias flag,
  neuron count). Also a `Network` class whose `AddLayer` appends to the
  declared layers and whose `FinalizeStructure` sets the finalised flag.
- `Report` (`report.dfy`): report rows, the pass and fail counts, the
  truncated success rate, and lemmas relating them.
- `Glass` (`glass.dfy`): the column-type table and the topology.
  `CreateNetwork` builds a `Network` object. The specification of the
  evaluation is the function `Evaluate`. Imperative code implements it:
  `CopySlice` fills a fresh `array2` with nested loops, `RunTestingSet`
  holds the counting loop, and `TestNetwork` calls both. `TestNetwork` is
  proved equal to `Evaluate`.

The plugin inherits state from its base class: `allInputs`, `allIdeals`,
`testStart`, `testEnd`, `numTestRows`, `subtypes`, the header count and
the width `encode(0).length` of an equilateral code. The model passes
these in as parameters. The network's forward pass `compute` and the
equilateral `decode` are library code. The model passes them in as
functions. The only thing it assumes of `decode` is that every result is
a valid index into `subtypes`.

Where the code and its own comments disagree, the model follows the
code. The comments on the input and output layers say "4 neurons" and
"2 neurons", but the code declares 9 and 5.

The model follows the code on an empty test slice too. With
`numTestRows == 0` the code does not fail. It computes `0.0 / 0.0`, which
is NaN, and `(int)(NaN * 100)` is 0, so it prints "Success Rate: 0%".
`Report.SuccessRate(0, 0)` is therefore 0, and
`Glass.EmptySliceScoresZero` states this outcome.

The three `assert` statements at the head of `testNetwork` are modelled as
checks that abort the evaluation with an error (`NoInputs`, `NoIdeals`,
`LengthMismatch`), in that order. This is what happens when the JVM runs
with assertions enabled; see "Left out" for a JVM without them.

## Model

| member | source | states |
|---|---|---|
| `Glass.GlassTopology` | LotayIrisPlugins/src/glass/concrete/Glass.java:80-98 | the declared layers fit the glass schema: every column but the last is a decimal feature and the last is the nominal class; the input layer has no activation and one neuron per feature column (column count minus one); the output layer has one neuron per dimension of the 6-class equilateral code |
| `Glass.GlassTopologyShape` | LotayIrisPlugins/src/glass/concrete/Glass.java:86-92 | exactly three layers, with widths 9, 36, 5, bias flags true, true, false, and activations none, tanh, tanh |
| `Glass.GlassSchemaFeedsInputLayer` | LotayIrisPlugins/src/glass/concrete/Glass.java:59-70 | the column-type table has 10 entries: nine decimal features, then one nominal class; the feature count (headers minus one) equals the input width 9; the code width for 6 classes equals the output width 5 |
| `Glass.CreateNetwork` | LotayIrisPlugins/src/glass/concrete/Glass.java:80-98 | returns a new, finalised network whose declared layers are exactly the glass topology, in declaration order |
| `Layers.Network.constructor` | LotayIrisPlugins/src/glass/concrete/Glass.java:83 | a new network has no layers and is not finalised |
| `Layers.Network.AddLayer` | LotayIrisPlugins/src/glass/concrete/Glass.java:86-92 | appends the layer after the ones already declared and leaves the finalised flag alone |
| `Layers.Network.FinalizeStructure` | LotayIrisPlugins/src/glass/concrete/Glass.java:95 | marks the network finalised and leaves the declared layers unchanged |
| `Glass.CopySlice` | LotayIrisPlugins/src/glass/concrete/Glass.java:111-134 | returns a fresh numTestRows x numCols block; cell (r, c) equals cell c of data row testStart + r for every r in the slice and every c < numCols; every read is in bounds |
| `Glass.BlockRowIsDataRow` | LotayIrisPlugins/src/glass/concrete/Glass.java:115-119 | a copied block row r is the data row testStart + r, cut to the block width |
| `Glass.CopiedPairsAreTestingSet` | LotayIrisPlugins/src/glass/concrete/Glass.java:111-137 | pairing the two blocks the copy loops fill gives the testing set: pair r is data row testStart + r of the inputs cut to numCols values, with data row testStart + r of the ideals cut to codeWidth values |
| `Glass.RunTestingSet` | LotayIrisPlugins/src/glass/concrete/Glass.java:155-185 | the loop's rows are the specified report rows for the testing set, in order; totalCount is the size of the testing set; passCount is the number of passed rows |
| `Glass.TestNetwork` | LotayIrisPlugins/src/glass/concrete/Glass.java:101-194 | the evaluation as the plugin runs it (checks, copy loops, counting loop, success rate) produces exactly the specified outcome `Evaluate` |
| `Glass.EvaluateAbortsIff` | LotayIrisPlugins/src/glass/concrete/Glass.java:103-106 | the evaluation aborts exactly when the inputs are empty, the ideals are empty, or their lengths differ, with the first failing check's error |
| `Glass.ReportRowsAt` | LotayIrisPlugins/src/glass/concrete/Glass.java:156-184 | one report row per pair, in order; the k-th row (0-based) classifies pair k and is numbered testStart + k + 1 |
| `Glass.EvaluateRows` | LotayIrisPlugins/src/glass/concrete/Glass.java:155-184 | a completed report has numTestRows rows and totalCount == numTestRows; row k is numbered testStart + k + 1 and compares the decoded network output for data row testStart + k with the decoded ideal of that row |
| `Glass.EvaluateCounts` | LotayIrisPlugins/src/glass/concrete/Glass.java:170-193 | passCount counts the passed rows and is at most totalCount; totalCount - passCount counts the failed rows; all rows pass iff passCount == totalCount; none passes iff passCount == 0; the rate is the truncated percentage, at most 100 |
| `Glass.PassedIffSameClass` | LotayIrisPlugins/src/glass/concrete/Glass.java:160-181 | when the class names are distinct, a row passes exactly when the predicted and actual class indices agree |
| `Glass.PerfectNetworkScoresFull` | LotayIrisPlugins/src/glass/concrete/Glass.java:170-193 | a network that reproduces every ideal row of a non-empty slice passes every row, and the success rate is 100 |
| `Glass.EmptySliceScoresZero` | LotayIrisPlugins/src/glass/concrete/Glass.java:187-193 | an empty slice completes with no rows, no passes and a success rate of 0 |
| `Report.CountAppend` | LotayIrisPlugins/src/glass/concrete/Glass.java:169-181 | adding a row raises exactly one of the pass and fail counts by one, according to its verdict |
| `Report.PassedPlusFailed` | LotayIrisPlugins/src/glass/concrete/Glass.java:188-189 | passed rows plus failed rows equals the number of rows |
| `Report.PassedAtMostTotal` | LotayIrisPlugins/src/glass/concrete/Glass.java:188 | the pass count never exceeds the number of rows |
| `Report.AllPassedIff` | LotayIrisPlugins/src/glass/concrete/Glass.java:172-188 | the pass count equals the row count iff every row passed |
| `Report.NonePassedIff` | LotayIrisPlugins/src/glass/concrete/Glass.java:172-188 | the pass count is zero iff no row passed |
| `Report.SuccessRateTruncates` | LotayIrisPlugins/src/glass/concrete/Glass.java:192-193 | for a non-empty report the rate is the percentage rounded down: rate * total <= 100 * passed < (rate + 1) * total, and rate <= 100 |
| `Report.SuccessRateExtremes` | LotayIrisPlugins/src/glass/concrete/Glass.java:192-193 | the rate is 100 iff every row passed; it is 0 when no row passed |
| `Report.TwoOfThreeIsSixtySix` | LotayIrisPlugins/src/glass/concrete/Glass.java:192-193 | two passes out of three print as 66, not 67 |

## Left out

- Report.SuccessRate: computed as `(100 * passCount) / totalCount` in integers. The source computes `(int)((double)passCount / totalCount * 100)` in doubles, and the two can differ by one for some counts. The integer formula is not claimed to agree bit for bit.
- Encog internals are not modelled: weight storage, what `finalizeStructure` allocates, `reset` with random weights, and the `compute` forward pass. This is library code and floating-point numerics. The forward pass is a function parameter, `Classifier.compute`.
- The equilateral `encode`/`decode` are not modelled. They are library code doing a floating-point nearest-code search. `decode` is a function parameter, assumed only to return a valid class index. Its tie-break rule and the round trip `decode(encode(c)) == c` belong to the library and are not stated.
- The width `encode(0).length` is a parameter, `codeWidth`. The assertion that compares `encode(0).length` with itself is always true and is not modelled.
- `Helper.headers` and CSV loading are not modelled: the header count is a parameter. The `AbstractIris` lifecycle and the training loop are also out.
- Rows are required, as a precondition, to be at least as wide as the copy reads, and the slice must lie inside the matrices. The source does not check either; it would fail with an array-index exception. Wider rows are cut to the copied width, as the source does.
- A header count of zero is excluded by a precondition. The source would fail allocating an array of negative width.
- `decode` returning an index outside `subtypes` is excluded by a precondition. The source would fail with an index exception.
- The timestamp header (`SimpleDateFormat`, `new Date()`) is not modelled. Neither is the printing nor the fixed-width column formatting. The report is a sequence of records (row number, actual, predicted, passed), with the `PASSED`/`FAILED` string as a boolean. The summary is the two counters and the rate; the failed count printed is `totalCount - passCount`.
- Glass.GlassTopology: the source never states the class count of 6. The model infers it from the output width 5, which is the width of an equilateral code for 6 classes (`GlassClassCount`).
- Glass.TestNetwork: modelled with Java assertions enabled. A JVM runs without `-ea` by default, and then the three checks at the head of `testNetwork` do nothing. An empty input matrix then gives an empty report only if the slice is empty; otherwise the copy fails with an index exception. A length mismatch whose slice fits both matrices runs to a completed report instead of ending in `LengthMismatch`. The model does not describe that run.
- Java's 32-bit `int` arithmetic is not modelled. The counters and row numbers cannot overflow for any slice that fits in memory.
