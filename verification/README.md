# Verified model of the lightweight query engine

A Dafny 4.11 model of the query engine in `pkg/litequery`, of the service-start registry in
`pkg/factory` and of the live-tail stream in `pkg/livelogs`, with proofs about it. The command
`dafny verify dfyconfig.toml` verifies the whole project.

**Formula language** (`Formula*.dfy`, `Decimals.dfy`, `Units.dfy`). `FormulaLexer` splits an
expression into tokens; `FormulaSyntax` holds the grammar as a function over the unread tokens and
the canonical printer; the class `FormulaParser.Parser` is the recursive-descent parser, each method
proved against the grammar. `FormulaRoundTrip` shows that the printer and the grammar agree and what
reading a canonical print does to a tree (`Reassociate`: chains of equal precedence lean left);
`FormulaText` lifts this to the text itself, with the literals of `FormulaLiterals`. `FormulaTyping`
and `FormulaEvaluation` are inference and strict evaluation; `FormulaSoundness`, `FormulaMeaning`,
`FormulaRotation` and `FormulaCanonical` relate them. `FormulaAnalysis` is the memoising inference
of one formula, `FormulaSet` the depth-first analysis of many. What parser and evaluator have in
common with their specifications is pinned by statements that name neither: `FormulaSymbols` says
which token every symbol, word and number is, `FormulaPrecedence` how expressions group,
`FormulaTypingRules` what each operator and function takes, `FormulaOperators` what it computes, and
`UnitSizes` how large each unit is in terms of the next smaller one.

**Formula execution** (`Alignment`, `FormulaInputs`, `FormulaExecution`). Inputs are joined on
length-prefixed keys, and a worklist runs each formula once its inputs are there. The method is
proved against a definition (`IsExecution`) that knows nothing of order: every formula's result is
what evaluating it over all final results gives. `PlanDefaults` tells which inputs default to zero.

**Worker pool** (`WorkerPool`) and **service start** (`ServiceStart`, `ServiceRegistry`) are state
machines whose steps are the points at which goroutines can interleave; results hold for every
sequence of enabled steps.

**Filters** (`Filters`, `FilterSql`, `FieldCatalog`, `FilterCompiler`, `FilterMeaning`,
`FilterProperties`, `FilterFields`, `FilterRules`). A filter tree has a meaning on rows (`Accepts`); its compiled condition is a SQL
tree evaluated in three-valued logic while it consumes positional arguments from left to right.
LIKE, ILIKE, regular expressions, substring search, string order and JSON body lookup are functions
of the store about which nothing is assumed. `FilterFields` says for every field which stored value
decides a test, and `FilterRules` what is accepted and what trees and scopes select, both in terms of
the rows selected alone.

**Statements** (`SqlText`, `StatementClauses`, `Statements`, `MetricStatements`, `StatementValues`,
`MetricValues`, `StatementExecution`). Statement text is a sequence of fixed words and placeholders; each placeholder
carries the value meant for it. Text and arguments are put together separately, as in the compilers,
and the arguments are proved to be the values meant, in text order. `StatementValues` and
`MetricValues` spell out which values stand where in the text; `StatementExecution` follows pages from
the query to the rows a store that obeys the text returns.

**Live tail** (`LiveTail`), **histogram weights** (`HistogramWeights`) and **time buckets**
(`TimeBuckets`) complete the model.

Numbers are exact: `float64` is modelled by `real`. NaN and infinities occur only in inputs and
count as Missing there.

## Where the code and its documentation or intent differ

The model follows the code.

- `pkg/factory/service.go:14-17` says that a service without its own health signal is healthy
  immediately after Start is called. The watcher goroutine is spawned before Start
  (`pkg/factory/registry.go:114-122`), so a service can be reported healthy, and a dependent started,
  before its own Start is called (`ServiceStart.HealthyBeforeStart`, `ServiceStart.DependentCanStartFirst`).
  That happens exactly when its health signal is there before its Start: `ServiceStart.HealthFollowsReport`,
  `ServiceStart.StartsFollowDependencies`, `ServiceStart.HealthyUnstarted`, `ServiceStart.DependentStartsFirst`.
- A service whose Start failed can still be set running by its watcher
  (`pkg/factory/registry.go:114-129`, `ServiceStart.FailedServiceCanReportRunning`), exactly while the
  watcher has not finished: `ServiceStart.FailedServiceRuns`.
- Validation accepts a logical filter with a missing item. For logs and traces compilation refuses
  it; for metrics it is compiled to an empty condition inside parentheses, which no store can
  evaluate: `FilterProperties.EvaluatesIffComplete`, `FilterProperties.MissingItemIsAccepted`.
- On a map field that a row does not have, a negative operator compares the zero value of the map,
  so it is not always the complement of the positive one: `FilterProperties.NegativeIsComplement`
  gives the exact condition.
- Printing a formula and reading it back can change its meaning once units are involved
  (`FormulaCanonical.UnitsCanBreakTyping`, `FormulaCanonical.UnitsCanChangeMeaning`). It still types
  exactly when no flattened pair turns a quantity times a ratio of quantities into a product of
  quantities (`FormulaCanonical.CanonicalTypesExactly`), and keeps its meaning when in addition no
  flattened pair reads a non-zero constant in another scale (`FormulaCanonical.CanonicalKeepsMeaning`).
- Inference trims units that evaluation compares untrimmed: `FormulaSoundness.UntrimmedUnitFails` says
  for which units.
- The weights of a histogram whose counts drop do not add up to the +Inf count:
  `HistogramWeights.ConservationIsExact` and `HistogramWeights.TieOrderMatters` give the exact conditions.
- Histogram quantile statements ignore the aggregation predicate
  (`pkg/litequery/metric_compiler.go:190-296`): `MetricStatements.OnlyNumericCarriesPredicate`.

## Model

| member | source | states |
|---|---|---|
| FormulaLexer.Tokenize | pkg/litequery/typed_formula.go:319-394 | The loop over the trimmed text returns exactly the tokens of `Lex`, or its first error, malformed and out-of-range numbers included; the empty expression is refused |
| FormulaReader.ReadExpression | pkg/litequery/typed_formula.go:303-317 | Reading a text is trimming, lexing and parsing by the grammar, errors included; on success the names are the references of the tree in expression order |
| FormulaReader.ReadIsLexical | pkg/litequery/typed_formula.go:336-358 | Every tree that is read has non-negative literals within range and with finitely many decimals, identifiers that are no operator words as names, and lower-case function names |
| FormulaSymbols.CharactersMean | pkg/litequery/typed_formula.go:374-386 | Each of + - * / ( ) and the comma is its own token, before any text |
| FormulaSymbols.ComparisonsMean | pkg/litequery/typed_formula.go:361-386 | >, < and = without = behind them are the three comparisons, and ! is refused |
| FormulaSymbols.PairsMean | pkg/litequery/typed_formula.go:361-373 | >=, <= and != are comparisons; ==, && and double bars are refused |
| FormulaSymbols.OthersAreRefused | pkg/litequery/typed_formula.go:387-389 | Every other character is refused, and so is a single ampersand or bar |
| FormulaSymbols.WordsMean | pkg/litequery/typed_formula.go:331-348 | A word of letters, digits and underscores is AND, OR or NOT in letters of either case, and else a name as written |
| FormulaSymbols.NumbersMean | pkg/litequery/typed_formula.go:349-360 | Digits, or digits around one point, are the number that the digits without the point stand for over a power of ten; refused beyond the range and without any digit |
| FormulaSymbols.PointsAreRefused | pkg/litequery/typed_formula.go:349-360 | A number with two points is refused |
| FormulaSymbols.LimitIsHalfway | pkg/litequery/typed_formula.go:354-356 | Literals are in range up to halfway between the largest 64-bit number and the power 1024 of two |
| FormulaSymbols.FormulaNames | pkg/litequery/validate.go:404-418 | A formula may have any word of letters, digits and underscores that starts with a letter as its name; used as a reference it reads as that name, unless it spells an operator |
| FormulaParser.ParseTypedFormula | pkg/litequery/typed_formula.go:303-317 | The cursor-based parser accepts exactly the token sequences of the grammar, with the same tree or the same error, and collects the references of that tree |
| FormulaParser.Parser.ParseOr | pkg/litequery/typed_formula.go:420-434 | From any cursor position the method reads one phrase of the lowest level, leaves the grammar's rest unread and appends exactly its references |
| FormulaParser.Parser.ParseComparison | pkg/litequery/typed_formula.go:464-481 | A comparison is read once; a chained comparison is the grammar's error |
| FormulaParser.Parser.ParseAdditive | pkg/litequery/typed_formula.go:483-497 | The loop builds the left-associative chain that the grammar's continuation defines |
| FormulaParser.Parser.ParseCallArgs | pkg/litequery/typed_formula.go:536-557 | Call arguments are read up to the closing parenthesis; the function name is lowered |
| FormulaPrecedence.TwoOperators | pkg/litequery/typed_formula.go:420-513 | For any operands, each pair of operators in a row: AND binds tighter than OR, comparisons tighter than both, sums tighter than comparisons, products tighter than sums, equals group to the left, and two comparisons are refused |
| FormulaPrecedence.NotAndSign | pkg/litequery/typed_formula.go:452-525 | NOT takes a whole comparison or sum but not AND or OR; a sign takes only the operand behind it |
| FormulaPrecedence.ExpressionsGroup | pkg/litequery/typed_formula.go:420-513 | Any flat expression of operands, NOTs and operators is read as split at its last OR, else its last AND, else after its NOTs at its only comparison, else its last sum, else its last product; two comparisons in one group are refused |
| FormulaPrecedence.ParenthesisedIsOperand | pkg/litequery/typed_formula.go:527-535 | An expression in parentheses is an operand that stands for the tree of the expression |
| FormulaPrecedence.SignedIsOperand | pkg/litequery/typed_formula.go:515-525 | A sign before an operand makes an operand |
| FormulaPrecedence.CallIsOperand | pkg/litequery/typed_formula.go:536-557 | A name with a list of expressions in parentheses is a call of the lowered name with their trees in order |
| FormulaParser.DistinctReferences | pkg/litequery/typed_formula.go:1178-1189 | Keeps each name once, in first-seen order, and loses none |
| FormulaRoundTrip.ParsePrinted | pkg/litequery/typed_formula.go:1114-1146 | A print under any parent precedence, before any text that cannot extend it, is read back at every level up to its own as the reassociated tree |
| FormulaRoundTrip.CanonicalRoundTrip | pkg/litequery/typed_formula.go:1114-1146 | Reading a canonical print consumes all of it and yields the reassociated tree; that tree prints the same, leans left, and is the original exactly when the original leans left |
| FormulaRoundTrip.CanonicalDecides | pkg/litequery/typed_formula.go:1129-1135 | Two trees have the same canonical print exactly when they differ only by reassociation |
| FormulaText.TextLexes | pkg/litequery/typed_formula.go:1114-1146 | The printed text, before anything that cannot extend its last word, is split into exactly the printed tokens |
| FormulaLiterals.LiteralReadsBack | pkg/litequery/typed_formula.go:1118-1119 | Every literal that can be read is written in decimal notation as digits that read back as the same number |
| FormulaText.DecimalTextRoundTrip | pkg/litequery/typed_formula.go:1114-1146 | For every accepted expression, with literals in decimal notation, the canonical text is read as the reassociated tree, and that tree has the same canonical text |
| FormulaText.CanonicalTextRoundTrip | pkg/litequery/typed_formula.go:303-317 | The same for every way of writing literals that reads back |
| FormulaText.CanonicalTextDecides | pkg/litequery/executor.go:236-241 | Comparing canonical texts is comparing canonical token sequences |
| FormulaCanonical.TypedIsPrintable | pkg/litequery/typed_formula.go:584-691 | Type checking excludes every tree the printer would render ambiguously |
| FormulaRotation.RotationTypes | pkg/litequery/typed_formula.go:781-866 | A nesting x op (y inner z) that types is typed as (x op y) inner z exactly when it is not a quantity times a quotient of a quantity, and then has the same type, signature and constant |
| FormulaRotation.RotationValues | pkg/litequery/typed_formula.go:996-1034 | When both type, they have the same value exactly if an operand is missing or no non-zero constant is read in a unit of another scale; products and logic always agree |
| FormulaCanonical.RotationKeepsMeaning | pkg/litequery/typed_formula.go:868-1034 | The same for trees and all inputs, failures of operands included |
| FormulaCanonical.CanonicalTypesExactly | pkg/litequery/typed_formula.go:1114-1146 | The reparse of the canonical print of an accepted formula types exactly when every pair that the print flattens types safely, and then has the same inference |
| FormulaCanonical.CanonicalKeepsMeaning | pkg/litequery/typed_formula.go:868-1034 | When every flattened pair keeps types and scales, and for left-leaning trees with any units, the reparse of the canonical print has the same inference and evaluates to the same value, Missing, division by zero and failures included |
| FormulaCanonical.DimensionlessIsSafe | pkg/litequery/typed_formula.go:791-843 | Over dimensionless inputs every flattened pair is safe, so every accepted formula keeps its meaning |
| FormulaCanonical.UnsafePairCanBeHidden | pkg/litequery/typed_formula.go:996-1034 | A tree with an unsafe pair can still evaluate as before, when a factor of zero hides the difference |
| FormulaCanonical.UnitsCanBreakTyping | pkg/litequery/typed_formula.go:814-843 | With seconds throughout, A * (B / C) types but its canonical reparse does not |
| FormulaCanonical.UnitsCanChangeMeaning | pkg/litequery/typed_formula.go:1129-1135 | With mixed units, A + (1 + B) and its canonical reparse both type and evaluate to different values |
| FormulaCanonical.EvaluateIsMeaning | pkg/litequery/typed_formula.go:868-946 | Evaluation over memoised inferences is evaluation with every type inferred anew |
| FormulaOperators.InputMeans | pkg/litequery/typed_formula.go:1072-1092 | An input must be there and of its bound kind; a number without a value is Missing, one with a value keeps its size in the bound unit, and is refused exactly when its unit does not convert to it |
| FormulaOperators.ComparisonMeans | pkg/litequery/typed_formula.go:1036-1070 | Each comparison of two typed numbers is true exactly as the plain relation of the numbers, for one unit, and of their sizes in base units, for two |
| FormulaOperators.SumMeans | pkg/litequery/typed_formula.go:996-1013 | A sum or difference is that of the numbers in one unit, and of the sizes in two |
| FormulaOperators.ProductMeans | pkg/litequery/typed_formula.go:996-1034 | A product is that of the numbers |
| FormulaOperators.QuotientMeans | pkg/litequery/typed_formula.go:996-1034 | A quotient is that of the numbers, or of the sizes for two units, and Missing exactly for a zero divisor |
| FormulaOperators.LogicMeans | pkg/litequery/typed_formula.go:868-946 | AND and OR of two truths are conjunction and disjunction |
| FormulaOperators.BinaryIsStrict | pkg/litequery/typed_formula.go:868-946 | A binary operator fails with its first failing operand and is Missing if an operand is |
| FormulaOperators.UnaryMeans | pkg/litequery/typed_formula.go:868-946 | NOT negates, a minus sign changes the sign, a plus sign changes nothing, and Missing stays Missing |
| FormulaOperators.AbsMeans | pkg/litequery/typed_formula.go:948-994 | abs is the magnitude of the number |
| FormulaOperators.ExtremumMeans | pkg/litequery/typed_formula.go:948-994 | min and max are the smaller and the larger number in one unit, and size in two |
| FormulaOperators.ClampMeans | pkg/litequery/typed_formula.go:948-994 | clamp is the number or size itself between its bounds, the nearer bound outside them, and fails exactly for crossed bounds |
| FormulaTypingRules.BinaryTypes | pkg/litequery/typed_formula.go:584-691 | For each binary operator the exact operand types it takes, series and units included, and the type, unit and series it gives |
| FormulaTypingRules.UnaryTypes | pkg/litequery/typed_formula.go:584-691 | NOT takes truths and signs take numbers, and both keep the type |
| FormulaTypingRules.CallTypes | pkg/litequery/typed_formula.go:693-766 | Only abs, min, max and clamp are known, each with its number of arguments; abs, min and max type exactly as stated |
| FormulaTypingRules.ClampTypes | pkg/litequery/typed_formula.go:693-766 | A clamp types exactly when its bounds compare with its value, are of one series with it, and do not cross when literal |
| FormulaTypingRules.LeafTypes | pkg/litequery/typed_formula.go:584-691 | A literal is a plain number; a reference types exactly when it is bound to a number or a truth without unit |
| FormulaAnalysis.Inferrer.InferNode | pkg/litequery/typed_formula.go:584-691 | The memoising inference returns what inference without memo returns, and its memo stays sound and closed under subtrees |
| FormulaAnalysis.AnalyzeTypedFormula | pkg/litequery/typed_formula.go:164-192 | Succeeds exactly when the expression can be read and typed; the record holds its inferences, canonical print, distinct references, type and series |
| FormulaSoundness.TypeSoundness | pkg/litequery/typed_formula.go:584-946 | Over inputs that match their bindings, evaluation gives a value of exactly the inferred kind and unit, equal to the folded constant if there is one, and can fail only on a clamp with low above high; a folded constant is dimensionless and belongs to no series |
| FormulaSoundness.UntrimmedUnitFails | pkg/litequery/typed_formula.go:791-812 | For every unit, A + 1 over a matching number is accepted, and fails with a unit mismatch exactly when trimming changes the unit but leaves some of it |
| FormulaMeaning.SuccessMeansInputsMatch | pkg/litequery/typed_formula.go:1072-1092 | Evaluation succeeds only on inputs that match their bindings in kind and compatible unit |
| FormulaMeaning.MissingIsExact | pkg/litequery/typed_formula.go:868-946 | A successful evaluation is Missing exactly when some referenced input has no usable value or some divisor, at any depth, evaluates to zero |
| FormulaMeaning.UnitInvariance | pkg/litequery/typed_formula.go:1072-1105 | Re-expressing inputs in compatible units leaves every evaluation unchanged, failures included |
| Units.CompatibleIsEquivalence | pkg/units/converter.go:65-78 | Compatibility is reflexive on non-empty units, symmetric and transitive |
| Units.ConvertComposes | pkg/units/converter_data.go:140-145 | Conversion through an intermediate compatible unit is the direct conversion, for every family |
| Units.ConvertInverts | pkg/units/converter_time.go:57-62 | Conversion to a unit and back, and to the same unit, is the identity |
| Units.ConvertKeepsOrder | pkg/units/converter_percent.go:25-30 | Conversion keeps order and zero |
| UnitSizes.Times | pkg/units/converter_time.go:5-16 | From nanoseconds to weeks each unit is the stated multiple of the one before, as converted |
| UnitSizes.Bytes | pkg/units/converter_data.go:17-25 | A byte is eight bits, and decimal byte units step by a thousand |
| UnitSizes.BinaryBytes | pkg/units/converter_data.go:39-46 | Binary byte units step by 1024 |
| UnitSizes.Bits | pkg/units/converter_data.go:5-13 | Decimal bit units step by a thousand |
| UnitSizes.BinaryBits | pkg/units/converter_data.go:30-34 | Binary bit units step by 1024 |
| UnitSizes.DataNames | pkg/units/converter_data.go:69-100 | The older names of bytes, bits and binary sizes are the same sizes |
| UnitSizes.DecimalDataNames | pkg/units/converter_data.go:69-100 | The older names of decimal sizes, in both spellings, step by a thousand |
| UnitSizes.ByteRates | pkg/units/converter_data_rate.go:15-23 | Decimal byte rates step as the bytes they carry |
| UnitSizes.BinaryByteRates | pkg/units/converter_data_rate.go:35-42 | Binary byte rates step as the bytes they carry, up to Ti |
| UnitSizes.LargeBinaryByteRates | pkg/units/converter_data_rate.go:35-42 | Binary byte rates step as the bytes they carry, from Ti on |
| UnitSizes.BitRates | pkg/units/converter_data_rate.go:5-13 | Decimal bit rates step as the bits they carry, up to T |
| UnitSizes.LargeBitRates | pkg/units/converter_data_rate.go:5-13 | Decimal bit rates step as the bits they carry, from T on |
| UnitSizes.BinaryBitRates | pkg/units/converter_data_rate.go:26-33 | Binary bit rates step as the bits they carry, up to Ti |
| UnitSizes.LargeBinaryBitRates | pkg/units/converter_data_rate.go:26-33 | Binary bit rates step as the bits they carry, from Ti on |
| UnitSizes.ByteRateNames | pkg/units/converter_data_rate.go:63-101 | The older names of byte rates are the same rates |
| UnitSizes.BitRateNames | pkg/units/converter_data_rate.go:63-101 | The older names of decimal bit rates are the same rates |
| UnitSizes.BinaryBitRateNames | pkg/units/converter_data_rate.go:63-101 | The older names of binary bit rates are the same rates |
| UnitSizes.Percents | pkg/units/converter_percent.go:14-23 | A unit is a hundred percent |
| UnitSizes.PlainFamilies | pkg/units/converter_throughput.go:15-21 | Throughputs convert among each other, and truth values too, without changing the number |
| UnitSizes.FamiliesAreSeparate | pkg/units/converter.go:44-63 | Nothing converts between the six families |
| UnitSizes.UnknownUnits | pkg/units/converter.go:65-80 | A unit that converts to no family converts exactly to itself |
| FormulaSet.AnalyzeTypedFormulaSet | pkg/litequery/typed_formula.go:197-279 | Terminates on every input; succeeds exactly when names are valid, unique and no inputs, all expressions can be read, the dependency graph has no cycle and some assignment of types solves all formulas; the result is the inference of each formula under all the others, the only solution, and a dependency order exists |
| FormulaSet.Analyzer.Analyze | pkg/litequery/typed_formula.go:223-273 | The nested recursion of inference, resolver and analysis keeps results, marks and order consistent, only extends what is known, and fails only if there is a cycle or no solution |
| FormulaSet.OrderExcludesCycles | pkg/litequery/typed_formula.go:227-230 | A dependency order of all formulas leaves no cycle |
| FormulaSet.SolutionsAgree | pkg/litequery/typed_formula.go:237-254 | Two solutions over one dependency order agree on every formula |
| FormulaSet.DeclarationOrderIrrelevant | pkg/litequery/typed_formula.go:274-278 | Which sets are accepted does not depend on the order of declaration |
| Alignment.BuildKey | pkg/litequery/executor.go:468-477 | The loop builds the length-prefixed key |
| Alignment.AlignmentKeyInjective | pkg/litequery/executor.go:468-477 | Sequences of encoded values with the same key are the same |
| Alignment.SameKeySameCells | pkg/litequery/executor.go:335-340 | Two rows share a key exactly when their encoded key cells agree |
| Alignment.AlignIsOuterJoin | pkg/litequery/executor.go:308-365 | A key is listed exactly when some input row has it, once, in the order in which rows are read; every key has for every input the value of its last row there, else its default, which AlignedValues spells out |
| Alignment.AlignedValues | pkg/litequery/executor.go:350-383 | Every aligned value has the kind and unit of its value column; it is the cell of the last row of its key, null, NaN and infinities being Missing, and without a row it is zero exactly for a numeric input that defaults to zero and else Missing |
| Alignment.RowFitsExactly | pkg/litequery/executor.go:330-333 | A row can be read exactly when it has a cell for every column and ends in null or a value of the kind of its column |
| Alignment.AlignedKeys | pkg/litequery/executor.go:334-340 | The cells of every aligned key are the leading cells of some input row |
| PlanDefaults.FormulaZeroDefaults | pkg/litequery/executor.go:423-448 | The inputs that default to zero are exactly those whose last query counts: counts and sums of logs, counts of spans, and counts, sums, rates and increases of metrics and meters |
| FormulaInputs.SameResultColumns | pkg/litequery/executor.go:450-466 | Answers whether two column lists agree in names and fields |
| FormulaInputs.FormulaInputs | pkg/litequery/executor.go:308-365 | Succeeds exactly when every input is there, has a value column, the same key columns as the first and readable rows; the keys, values and columns are then those of the alignment |
| FormulaExecution.EvaluateFormulas | pkg/litequery/executor.go:221-292 | Succeeds exactly when the formulas are accepted over the concrete results, match the plan and can all be evaluated; answers come one for each formula in plan order and each is its direct evaluation over all final results; the branches for no progress and for a missing program cannot be reached |
| FormulaExecution.ResultIsEvaluated | pkg/litequery/executor.go:257-276 | The result of a formula has the key columns of its first input and a value column of its inferred kind and unit, and for every aligned key one row: the cells of the key and the evaluated value, null for Missing |
| FormulaExecution.NamedResults | pkg/litequery/executor.go:222-225 | A name stands for the last query result of that name |
| FormulaExecution.BindingsAreTyped | pkg/litequery/executor.go:385-403 | Formulas are typed over results bound to their series signature and to the kind and unit of their last column, a number by default |
| FormulaExecution.SignatureLists | pkg/litequery/executor.go:405-421 | The series signature lists the key columns in order, each with its name and the context and name of its field |
| FormulaExecution.Pass | pkg/litequery/executor.go:245-283 | One pass keeps every finished result final, shortens the worklist when it makes progress, and otherwise has found every waiting formula blocked; an error means that no execution exists |
| FormulaExecution.SomeReady | pkg/litequery/executor.go:284-286 | While formulas of an ordered set wait, one of them has all its inputs |
| FormulaExecution.ExecutionIsUnique | pkg/litequery/executor.go:245-288 | The results are unique, so they do not depend on the order of evaluation |
| FormulaExecution.OnlyClampsFail | pkg/litequery/executor.go:265-269 | Over results of the inferred types in trimmed units, evaluating an accepted formula row by row fails only where a clamp has low above high |
| FormulaExecution.ExecutionHasInferredTypes | pkg/litequery/executor.go:262-264 | Every result of an execution has the type inferred for its name |
| WorkerPool.PoolIsCorrect | pkg/litequery/executor.go:84-129 | In every schedule no index is started twice, a pool that returns without error holds each statement's own result at its own index, and a pool with a failed statement can only return an error |
| WorkerPool.ErrorsHaveCauses | pkg/litequery/executor.go:79-129 | In every schedule an error names a query that failed or a context that is done, the context only ends by its deadline or after a failure, and at most the configured number of workers exist, four by default |
| WorkerPool.ReturnIsExact | pkg/litequery/executor.go:120-129 | The pool returns without error exactly when no error is at hand and the context is not done; an error received while sending comes first |
| WorkerPool.NeverStuck | pkg/litequery/executor.go:108-129 | Until the pool has returned some step other than a deadline is enabled |
| WorkerPool.PoolReturns | pkg/litequery/executor.go:84-129 | Every schedule is finite and ends with the pool returned |
| ServiceRegistry.NewRegistry | pkg/factory/registry.go:30-79 | Succeeds exactly with a logger, at least one service, distinct names and acyclic kept dependencies; kept are the known dependencies other than the service itself, in declared order |
| ServiceRegistry.Sort | pkg/factory/registry.go:214-250 | Returns ranks that decrease along every dependency, or nothing exactly when there are none |
| ServiceRegistry.ServiceState.SetState | pkg/factory/state.go:58-69 | Turning running closes the health channel if it is open and never a second time, and is the step of the watcher in the protocol; turning failed is the step of the failing goroutine |
| ServiceStart.RunKeepsInvariant | pkg/factory/registry.go:81-133 | Every interleaving keeps the protocol invariant: channels are closed at most once, a service past its waits has only healthy dependencies, watchers and phases fit together |
| ServiceStart.StartIsSafe | pkg/factory/registry.go:81-133 | In every interleaving Start is called at most once and only after every kept dependency has become healthy, no channel is closed twice, and AwaitHealthy returns without error only when every service has become healthy |
| ServiceStart.ResultsAreCounted | pkg/factory/registry.go:76-130 | In every interleaving the results handed in are those waiting in the channel of one and the one received, so at most two services ever get past handing theirs in |
| ServiceStart.FailuresHaveReasons | pkg/factory/registry.go:89-129 | In every interleaving a failure has its reason: the context was cancelled, a dependency was over, or the own Start failed |
| ServiceStart.SomeServiceCanStep | pkg/factory/registry.go:86-110 | Behind every waiting service stands, along a chain of dependencies, one that can step or is inside its own Start: there is no circular wait, and the full result channel holds nobody up |
| ServiceStart.RunsAreBounded | pkg/factory/registry.go:81-133 | Every interleaving is finite |
| ServiceStart.NobodyWaitsForever | pkg/factory/registry.go:81-133 | Over acyclic dependencies, once the registry's own goroutines have come to rest, whatever the contexts, the services' own Start and health, and the reader of results do: every service has returned with its watcher done, or a chain of dependencies leads to one still inside its Start; likewise for what AwaitHealthy waits for; with no Start running everything has returned |
| ServiceStart.CyclesNeverStart | pkg/factory/registry.go:81-110 | Services on a cycle of dependencies would never be started or healthy in any interleaving |
| ServiceStart.HealthFollowsReport | pkg/factory/registry.go:114-122 | In every run a service is healthy only after its own report, and started only after the report of each dependency |
| ServiceStart.StartsFollowDependencies | pkg/factory/service.go:14-17 | In every run in which a dependency reports healthy only after its Start has been called, the Start of a dependent is called after it |
| ServiceStart.HealthyUnstarted | pkg/factory/registry.go:114-124 | From every reachable state with a service about to be started, it can turn healthy before the call of Start and any further report exactly if it has reported already |
| ServiceStart.DependentStartsFirst | pkg/factory/registry.go:86-124 | From every reachable state in which a service waits for nothing but a dependency about to be started, it can be started first exactly if that dependency has reported already |
| ServiceStart.FailedServiceRuns | pkg/factory/registry.go:114-131 | From every reachable state with a failed service, some continuation sets it running exactly if its watcher has not finished or has done so already; this takes an error of its own Start, not of a dependency or the context |
| ServiceStart.HealthyBeforeStart | pkg/factory/registry.go:114-122 | A service without dependencies whose health signal is there from the outset can be healthy before its Start is called |
| ServiceStart.DependentCanStartFirst | pkg/factory/registry.go:114-122 | A dependent's Start can be called before that of its dependency |
| ServiceStart.FailedServiceCanReportRunning | pkg/factory/registry.go:114-129 | A service whose Start failed can be set running, after which AwaitHealthy returns without error |
| Filters.FilterValidator.Validate | pkg/litequery/filter.go:81-114 | Accepts exactly the well-formed trees within what is left of the depth and node budgets; always restores the depth; on acceptance has counted every node |
| FilterRules.ValidatedExactly | pkg/litequery/filter.go:116-160 | A predicate is accepted exactly when its field has a name and its operand is what operator and field type ask for: kind, finite numbers, non-empty lists, patterns of up to 1024 bytes with text in them that compile |
| FieldCatalog.RenderedReads | pkg/litequery/catalog.go:220-257 | The SQL rendered for a field reads what the row holds for it, its existence test says whether the row has it, and both consume exactly their arguments |
| FieldCatalog.ObservedType | pkg/litequery/catalog.go:124-207 | The value read for a field has the field's type; only a body path that is not there is null |
| FilterFields.LogFields | pkg/litequery/catalog.go:124-176 | A test of a log resource, attribute or scope selects exactly the rows where it holds of the stated key of the stated map, or of the scope columns; other types and contexts are refused |
| FilterFields.BodyFields | pkg/litequery/catalog.go:124-176 | A test of the body holds of the body column, and of a body path of what is found there, a path without $ starting at the root |
| FilterFields.LogColumns | pkg/litequery/catalog.go:124-176 | The columns of logs, by type; any other is refused |
| FilterFields.TraceFields | pkg/litequery/catalog.go:178-207 | A test of a span resource or attribute holds of its map key, or for the nine fields with a column of their own of that column, present as its presence column says |
| FilterFields.SpanColumns | pkg/litequery/catalog.go:178-207 | The columns of spans, by type; any other is refused |
| FilterFields.MetricFields | pkg/litequery/metric_compiler.go:390-428 | A test of a label, attribute, resource, scope or column of a metric or meter series holds of the stated map or column; only metrics have attributes, resources and scopes |
| FilterCompiler.CompileFilter | pkg/litequery/compiler.go:405-435 | The loop over items collects parts and arguments of exactly the compiled tree, or its first error |
| FilterMeaning.PredicateSays | pkg/litequery/compiler.go:456-519 | For every operator and kind of field, the compiled predicate is true exactly when the predicate holds of the row, and uses up exactly its arguments |
| FilterFields.TestMeans | pkg/litequery/compiler.go:456-519 | What each operator tests of a value and its presence: negative operators test the value even when the field is not there, null passes no test of a value |
| FilterMeaning.ScopeSays | pkg/litequery/compiler.go:437-454 | The root and entry-point conditions say what the scopes mean |
| FilterRules.ScopeFields | pkg/litequery/compiler.go:437-454 | A span field spelled isRoot or isEntryPoint in any case selects exactly the rows without parent, or with a remote parent and a serving or consuming kind; anything but an equality with true is refused |
| FilterRules.ScopesAre | pkg/litequery/types.go:109-121 | A field is a scope exactly under these two names, for spans of traces |
| FilterMeaning.FilterPreservesMeaning | pkg/litequery/compiler.go:405-435 | For every validated tree, row and following arguments, evaluating the compiled condition is true exactly when the tree accepts the row, and leaves exactly the following arguments |
| FilterRules.TreeMeans | pkg/litequery/compiler.go:405-435 | A compiled conjunction selects exactly the rows that all its items select, a disjunction those that any does |
| FilterProperties.PositiveNeedsPresence | pkg/litequery/compiler.go:465-519 | The condition compiled from a positive test never selects a row without the field, for every field that can be absent |
| FilterProperties.NegativeIsComplement | pkg/litequery/compiler.go:465-519 | The condition compiled from a negative test selects exactly the rows that the positive one does not, exactly when the field is there or what is read instead fails the positive test: the zero value of a map, the stored column of a materialized field, and never for a missing body path |
| FilterProperties.CompilesIffSupported | pkg/litequery/compiler.go:405-454 | A validated tree compiles exactly when every field is in the catalog, scopes are only tested for truth, and missing items only occur for metrics and meter |
| FilterProperties.EvaluatesIffComplete | pkg/litequery/metric_compiler.go:430-460 | The condition compiled from a validated tree can be evaluated exactly when no item is missing |
| FilterProperties.MissingItemIsAccepted | pkg/litequery/filter.go:81-84 | A validated metric filter exists that compiles to a condition no store can evaluate |
| FilterProperties.HasSingleHistogramBucket | pkg/litequery/validate.go:213-234 | The recursion with early return answers whether some conjunct fixes the bucket |
| FilterProperties.SingleBucketIsSound | pkg/litequery/validate.go:213-234 | All rows that satisfy the condition compiled from an accepted filter carry one and the same le label, however deeply it is nested |
| SqlText.SlotsAreWanted | pkg/litequery/compiler.go:87-173 | An aligned text has one meant value for each placeholder |
| SqlText.FilterSlots | pkg/litequery/compiler.go:405-435 | A compiled filter has one argument for each of its placeholders |
| StatementClauses.TimeRangeCondition | pkg/litequery/compiler.go:566-582 | The placeholders of the range receive its start and end in text order, in nanoseconds for logs and milliseconds for spans; for logs it fails exactly when a bound is beyond capacity, and for other signals always |
| StatementClauses.TimeBucket | pkg/litequery/compiler.go:584-603 | Succeeds exactly for a positive step within capacity; the placeholders receive the divisor in the stored unit and the factor in milliseconds |
| StatementClauses.WhereIsRangeAndFilter | pkg/litequery/compiler.go:390-403 | Succeeds exactly when the range is within capacity and the filter compiles; holds the range and the compiled filter, and passes the bounds before the arguments of the filter |
| StatementClauses.CompileOrder | pkg/litequery/compiler.go:535-564 | The order text lists all orders, and its arguments are those of the fields in it |
| StatementValues.RangeIs | pkg/litequery/compiler.go:566-582 | The range is from the start on and before the end, as instants in nanoseconds for logs and milliseconds for spans |
| StatementValues.BucketIs | pkg/litequery/compiler.go:584-603 | The bucket divides the stored instant by the step in its unit and multiplies by the step in milliseconds |
| StatementValues.OrderItemIs | pkg/litequery/compiler.go:535-564 | An order item is the column of its field, or the aggregated value where there is one, in the direction asked for |
| Statements.CompileRaw | pkg/litequery/compiler.go:87-173 | Succeeds exactly when columns, filter, cursor and order compile; the arguments of columns, range, filter, cursor, order, limit plus one and offset are each the one meant for its placeholder; the text ends in the limit plus one, a hundred by default, and the offset unless it is zero |
| StatementValues.RawValues | pkg/litequery/compiler.go:87-173 | The text of raw rows holds the range of its table, the compiled filter with its arguments, and behind a cursor the cursor instant, twice, and its id, each behind its own comparison |
| StatementValues.RawColumns | pkg/litequery/compiler.go:87-140 | Raw rows come from the table of their signal and read every field asked for as a numbered column; logs without a selection carry nine columns more |
| StatementValues.RawFieldsAre | pkg/litequery/compiler.go:177-196 | The fields of raw rows are those asked for or the stated defaults; spans always carry time and identity, added only where no field has the name |
| StatementValues.RawOrderIs | pkg/litequery/compiler.go:626-653 | Raw rows are ordered by the fields asked for and, unless an id is among them, the id in the last direction; else latest first, or earliest first behind a cursor |
| Statements.CompileTraceSummary | pkg/litequery/compiler.go:198-258 | Succeeds exactly when filter, service field, range and order compile; the arguments of the matching condition, the service column, the second range, limit plus one and offset are each the one meant for its placeholder; the text ends in the limit plus one, a hundred by default, and the offset unless it is zero |
| StatementValues.SummaryValues | pkg/litequery/compiler.go:198-258 | A summary holds the same range twice, that of the matching condition with the compiled filter behind it and that of the spans |
| StatementValues.SummaryOrderIs | pkg/litequery/compiler.go:260-283 | A summary reads the service of its spans; each order is by one of seven names, two of which stand for other columns, and any other is refused; else it is latest first |
| Statements.CompileAggregate | pkg/litequery/compiler.go:287-354 | Succeeds exactly when bucket, groups, filter and order compile; the arguments of bucket, groups and aggregation, which occur in several clauses, and of range, filter, predicate, order and limit are each the one meant for its placeholder; with a limit the text ends in the limit plus one |
| StatementValues.AggregateValues | pkg/litequery/compiler.go:287-354 | An aggregate holds the range, the compiled filter, the bucket as first column and first group of a series, and the predicate as aggregation, comparison and number |
| StatementValues.AggregateColumns | pkg/litequery/compiler.go:287-354 | An aggregate reads the table of its signal, each group as a numbered column and the aggregation as value, in the order asked for or the default one |
| Statements.LogAggregate | pkg/litequery/compiler.go:356-369 | An aggregated log field keeps its own arguments in its place |
| StatementValues.LogAggregateIs | pkg/litequery/compiler.go:356-369 | The aggregated value of logs is their count, or the sum, average, minimum or maximum of the field |
| StatementValues.TraceAggregateIs | pkg/litequery/compiler.go:371-388 | The aggregated value of spans is their count, or the average or stated quantile of their durations |
| Statements.CompileLogs | pkg/litequery/compiler.go:46-60 | Chooses raw rows or the aggregate and succeeds exactly when that compiles; every statement has as many arguments as placeholders, each the one meant |
| Statements.CompileTraces | pkg/litequery/compiler.go:62-80 | Chooses raw spans, summary or aggregate and succeeds exactly when that compiles; every statement has as many arguments as placeholders, each the one meant |
| Statements.DeliveredOneForOne | pkg/litequery/compiler.go:19-44 | A delivered statement has exactly one argument for each placeholder |
| MetricStatements.CompileSeries | pkg/litequery/metric_compiler.go:298-388 | Succeeds exactly when groups and filter compile; for gauges, sums, histograms and meter the arguments of groups, metric, type, temporality, range and filter are each the one meant for its placeholder |
| MetricValues.SeriesColumns | pkg/litequery/metric_compiler.go:298-388 | Series carry each group as a numbered column, the bucket bound behind them for quantiles, and the compiled filter |
| MetricStatements.CompileNumericMetric | pkg/litequery/metric_compiler.go:32-188 | Succeeds exactly when series, bucket, aggregations and order compile; for every combination of delta or cumulative, rate, increase or plain, scalar or series each argument is the one meant for its placeholder |
| MetricValues.NumericValues | pkg/litequery/metric_compiler.go:32-188 | A numeric statement holds the series with the stated metric, type, temporality and range, the points of the metric in range, the bucket of a series, the stated aggregation of points, of buckets for rates and increases with its divisor, and of series, and the predicate over the latter |
| MetricValues.MetricOrderIs | pkg/litequery/metric_compiler.go:556-589 | Metric rows are ordered by the value or by the numbered column of a group; a field that is no group is refused; else in time or by value |
| MetricStatements.CompileHistogram | pkg/litequery/metric_compiler.go:190-296 | Succeeds exactly for metrics whose name ends in .bucket, with a quantile, and when series, bucket and order compile; each argument is the one meant for its placeholder |
| MetricValues.HistogramValues | pkg/litequery/metric_compiler.go:190-296 | A quantile statement holds the series of the histogram by bound, its points in range, the latest or the sum of the points in a bucket, and the quantile asked for |
| MetricStatements.OnlyNumericCarriesPredicate | pkg/litequery/metric_compiler.go:147-296 | A quantile statement is the same for every aggregation predicate; a numeric statement is the same only for the same predicate |
| MetricStatements.CompileMetric | pkg/litequery/metric_compiler.go:11-30 | Succeeds exactly without cursor, for a series or scalar, for meter only over sums, and when the chosen statement compiles; dispatches quantiles to the histogram statement and all else to the numeric one; every statement has as many arguments as placeholders |
| StatementExecution.ExecuteStatement | pkg/litequery/executor.go:145-206 | Refuses conflicting limits and too many rows, keeps the first rows up to the page or result limit, and reports a next page or truncation exactly when more rows came |
| StatementExecution.LookAheadIsExact | pkg/litequery/executor.go:182-194 | Fetching one row more than the limit tells exactly whether there are more, and the rows kept are the first of all |
| StatementExecution.QueryRows | pkg/litequery/compiler.go:156-173 | Over a store that obeys the limit and offset of the text, raw rows are exactly those of the page asked for, and a next page is reported exactly when more rows follow |
| StatementExecution.QueryTraces | pkg/litequery/compiler.go:219-236 | Over such a store, trace summaries are exactly those of the page asked for, and a next page is reported exactly when more follow |
| StatementExecution.QueryGroups | pkg/litequery/compiler.go:340-354 | Over such a store, groups are the first up to the limit, or all without one, and marked truncated exactly when there are more |
| LiveTail.Stream.Read | pkg/livelogs/handler.go:184-229 | Succeeds exactly when the range end is within capacity and every row of the batch has an id; returns the rows of the batch and the cursor of the last |
| LiveTail.Stream.WriteBatch | pkg/livelogs/handler.go:158-177 | Writes the batch and moves the cursor to its last row, so that cursor and output are again those of a sequence of polls; on a failure the cursor stays, and only a failing connection leaves part of the batch written |
| LiveTail.StoredRowConverts | pkg/livelogs/handler.go:231-253 | A row within a range that may be polled keeps its timestamp in the signed conversion and its key in the cursor; a row without an id is refused |
| LiveTail.ValuesConvert | pkg/livelogs/handler.go:255-283 | Non-negative whole numbers are timestamps; texts are read as they are and numbers in decimal |
| LiveTail.BatchIsBounded | pkg/livelogs/handler.go:27 | A batch is the first 500 rows of its answer, or all |
| LiveTail.EndIsPastNow | pkg/livelogs/handler.go:184-188 | The polled range ends just past both its start and the current millisecond |
| LiveTail.TextOrderIsLexicographic | pkg/litequery/compiler.go:142-149 | Ids are ordered as texts: at the first difference by character, and a prefix first |
| LiveTail.EmittedRowsAreSelected | pkg/livelogs/handler.go:96-111 | Over any polls with rows added in between, emitted rows strictly increase by timestamp and id, so none repeats, and each matches filter and range |
| LiveTail.NothingIsSkipped | pkg/livelogs/handler.go:96-111 | A matching row that was in the table while the cursor was before it has been emitted or is still ahead of the cursor, whatever the clock does and however many rows a poll finds |
| LiveTail.PendingRowAdvances | pkg/livelogs/handler.go:96-111 | A pending row in range is emitted by the next poll unless that poll is full of earlier rows |
| LiveTail.PendingRowIsReached | pkg/livelogs/handler.go:96-111 | With k matching rows ahead of it, those added meanwhile included, a pending row that stays in range has been emitted after k / 500 + 1 polls |
| HistogramWeights.WeightsAreConserved | pkg/litequery/metric_compiler.go:255-266 | For counts that grow with the bound, the weights add up to the +Inf count |
| HistogramWeights.TieOrderIrrelevant | pkg/litequery/metric_compiler.go:262-266 | The weight at or below every bound is the same however the tied last finite and +Inf rows are ordered |
| HistogramWeights.ConservationIsExact | pkg/litequery/metric_compiler.go:262-266 | For distinct bounds in order of upper bound the weights add up to the +Inf count exactly when no count drops up to the +Inf row and the row tied behind it, if any, has no larger count |
| HistogramWeights.TieOrderMatters | pkg/litequery/metric_compiler.go:262-266 | The order of the tied last finite and +Inf rows changes the total exactly when their counts differ and the row before them has a larger count than one of them |
| HistogramWeights.DroppingCountsAddWeight | pkg/litequery/metric_compiler.go:265-266 | An example in which a drop makes the weights exceed the +Inf count |
| TimeBuckets.BucketCountIsExact | pkg/litequery/validate.go:102-106 | The validated number of points is the number of distinct buckets of the instants in the range |
| TimeBuckets.LogBucketIsMilliBucket | pkg/litequery/compiler.go:589-599 | The nanosecond bucket of a log is the millisecond bucket of the same instant |
| TimeBuckets.GuardIsExact | pkg/litequery/validate.go:8 | The guard admits exactly the milliseconds whose nanoseconds fit in 64 bits |
| TimeBuckets.BucketsFit | pkg/litequery/compiler.go:566-603 | Under the guard all bucket arithmetic stays within 64 bits |

## Left out

- FormulaText.DecimalTextRoundTrip: literals are exact decimals; which shorter decimal still identifies a rounded 64-bit number is not modelled.
- FormulaText.CanonicalTextRoundTrip: how a literal is written is a parameter; it is required to write each literal of the formula as digits that read back as the same number.
- FormulaCanonical.CanonicalKeepsMeaning: trees that do not lean left are required to have trimmed units, as for type soundness; the condition on values is exact for each rotation but only sufficient for a whole tree, where differences can be hidden or cancel each other (FormulaCanonical.UnsafePairCanBeHidden).
- FormulaCanonical.CanonicalTypesExactly: requires trimmed units.
- FormulaLexer.Tokenize: numbers are exact, without rounding to 64 bits; byte positions in messages are not modelled.
- FormulaExecution.OnlyClampsFail: requires trimmed units, without which evaluation can also fail on units.
- FilterMeaning.FilterPreservesMeaning: rows are required to hold values of their columns' types; what the store does with a list of mixed types is not modelled beyond inequality of values of different types.
- HistogramWeights.WeightsAreConserved: bounds are distinct numbers and weights are exact, without the final conversion to unsigned integers.
- LiveTail.EmittedRowsAreSelected: rows of the table are required to have distinct (timestamp, id) keys.
- Float rounding, overflow and number formatting; `pkg/units` formatters.
- ClickHouse itself, drivers, HTTP and SSE framing: the store is a set of rows, its answers are parameters constrained by what the statement selects.
- Fixed SQL text: only its placeholders and embedded expressions matter to the proofs, so long stretches are abbreviated; result columns of statements are not modelled.
- How a metric label is extracted from its JSON column: labels are read like a map column.
- Encoding of a cell for its alignment key: the dynamic type and printed form are one given text for each cell.
- The topological sort of the graph library is replaced by one proved against ranks; error messages naming the cycle are not modelled.
- Stop and Wait of the registry, logging and locks around single field accesses.
- Request validation other than filters, single-bucket filters and time buckets: name uniqueness, limits and aggregation tables are plain checks.
- The V5 adapter that parses filter expressions for the live tail, and its metadata lookup.
- ANTLR visitors, rollup table choice, configuration, migrations, authentication and the frontend.
