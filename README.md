# Ganymede core, modelled in Dafny

Ganymede is an Android calculator and toolbox app. This project models the parts of it
that have logic of their own, one module per source file:

- the translation merge tool, which turns a base string list and a CSV table into one
  localized string document per locale;
- the calculator's expression editor, with its undo/redo stacks, history and expression
  preprocessing;
- the graph plotter's tokenizer and its shunting-yard conversion to reverse Polish notation;
- the date calculator, including the Gregorian Easter computation;
- unit conversion: factor units (with the length and mass unit tables as data), temperature,
  fuel consumption and numeral bases;
- the SMD resistor and capacitor code decoders, and the molar-mass formula parser;
- the ASCII tables;
- the LRU calculation cache;
- the list-of-components view models for series and parallel resistors and capacitors;
- the `Result` type, the global search, the GCD/LCM calculator, the error manager, the
  operator enumerations, the logic gates and the matrix calculator.

Pure Kotlin and Python code is modelled as datatypes and functions. View models whose state
changes are classes: their methods state the new state as a function of the old one, and
lemmas about those functions state what the app promises. The source's explicit loops are `while`
loops, each proved against a function; its library iterations (`filter`, `mapNotNull`, `sumOf`,
`findAll`) are recursive functions. Doubles are modelled as `real`, so there is no
rounding, except where the numeral-base unit turns whole numbers into doubles. Text is handled over ASCII only. Two helper modules are shared by all the others:
`Wrappers` (`Option`) and `Text` (character classes, stripping, numerals, and Kotlin's
integer and double parsing).

## Model

| member | source | states |
|---|---|---|
| Translations.EntryOf | app/tools/generate_translations.py:36-38 | a qualifying child yields its `name` attribute and its stripped text, or "" when it has no text |
| Translations.ReadBaseStrings | app/tools/generate_translations.py:32-39 | the loop over the root's children returns exactly `BaseStrings` of them |
| Translations.BaseStringsExactly | app/tools/generate_translations.py:36-38 | an entry is produced for every `string` child that has a `name`, and only for those |
| Translations.BaseStringsStripped | app/tools/generate_translations.py:38 | base texts carry no surrounding whitespace |
| Translations.DataRows | app/tools/generate_translations.py:66-67 | the data rows are non-empty records taken from the file |
| Translations.KeyColumn | app/tools/generate_translations.py:71-73 | a key column exists iff "key" or "name" is a header, and "key" wins when both exist |
| Translations.Locales | app/tools/generate_translations.py:74 | the locales are exactly the headers other than the key column |
| Translations.Dedup | app/tools/generate_translations.py:76 | the locale tables' keys are the locales without repeats, each kept once |
| Translations.LastIndex | app/tools/generate_translations.py:66 | a repeated header resolves to its last column |
| Translations.Cell | app/tools/generate_translations.py:78-82 | a cell exists whenever the row reaches the header's column |
| Translations.InitialTables | app/tools/generate_translations.py:76 | every non-key header starts with its own empty table |
| Translations.LoadCsvSpec | app/tools/generate_translations.py:64-85 | no data rows exits with "CSV is empty or invalid"; no key or name header exits with the key-column message |
| Translations.StoreRow | app/tools/generate_translations.py:81-84 | the inner loop over the locales computes `StoreCells` |
| Translations.LoadCsv | app/tools/generate_translations.py:64-85 | the two loops compute `LoadCsvSpec` |
| Translations.StoreCellsKeeps | app/tools/generate_translations.py:82-84 | storing a row keeps only non-empty stripped values under a non-empty stripped key, and adds no locale |
| Translations.FoldRowsKeeps | app/tools/generate_translations.py:77-84 | the row loop keeps every table clean and keeps the set of locales |
| Translations.LoadedTables | app/tools/generate_translations.py:74-85 | a successful load has one table per non-key header; empty cells and blank keys are never stored |
| Translations.RowValue | app/tools/generate_translations.py:78-84 | a row says something about (locale, key) only through a non-blank stripped key equal to that key and a non-blank stripped cell, which is what it says |
| Translations.LastValueIsLast | app/tools/generate_translations.py:77-84 | the rows give (locale, key) a value exactly when some row says something about it, and then it is what the last such row says |
| Translations.StoreCellsValue | app/tools/generate_translations.py:81-84 | storing one row sets exactly the row's key, in each locale whose stripped cell is non-blank, to that stripped cell; everything else is kept |
| Translations.RowStepValue | app/tools/generate_translations.py:78-84 | one row step stores what the row says about (locale, key) and keeps the previous value otherwise |
| Translations.SeparatorCellIgnored | app/tools/generate_translations.py:82-83 | example of `Translations.StoreCellsKeeps`: a cell made only of the information separators U+001C to U+001F strips to nothing, so the row stores no value for it |
| Translations.RowStepCases | app/tools/generate_translations.py:78-84 | one row crashes when its key cell is missing, is skipped when its key strips to nothing, and otherwise has its cells stored under the stripped key |
| Translations.FoldRowsValue | app/tools/generate_translations.py:77-84 | after the row loop, (locale, key) holds what the last row saying something about it says, else its value before the loop |
| Translations.LoadedValues | app/tools/generate_translations.py:64-85 | a loaded table holds a key exactly when some data row gives it a non-blank cell for the locale, and its value is the stripped cell of the last such row |
| Translations.LoadedHasLocale | app/tools/generate_translations.py:74-76 | every non-key header of a loaded CSV has a table |
| Translations.LoadedMerge | app/tools/generate_translations.py:50-84 | the written text of a base key is the stripped cell of the last row translating it for the locale, else the base text |
| Translations.LaterRowWinsExample | app/tools/generate_translations.py:77-84 | with rows "hello,salut" then "hello,bonjour", the fr table is exactly hello mapped to bonjour |
| Translations.FoldRowsAppend | app/tools/generate_translations.py:77 | rows are processed in order, stopping at the first failure |
| Translations.DataRowsInsert | app/tools/generate_translations.py:66-67 | a record inserted after the header becomes a data row in the same place |
| Translations.FoldRowsInsertBlank | app/tools/generate_translations.py:78-80 | a row with a blank key changes nothing in the row loop |
| Translations.BlankKeyRowIgnored | app/tools/generate_translations.py:78-80 | inserting a row with a blank key leaves the result of `load_csv` unchanged |
| Translations.StoreCellsFull | app/tools/generate_translations.py:82 | a row as long as the header never hits a missing cell |
| Translations.FoldRowsFull | app/tools/generate_translations.py:77-84 | the row loop cannot fail when every row is as long as the header |
| Translations.FullRowsNeverCrash | app/tools/generate_translations.py:64-85 | a CSV with data rows, a key column and no short row always loads |
| Translations.MergeValue | app/tools/generate_translations.py:50 | the value is the translation when non-empty, else the default |
| Translations.MergeWithLoaded | app/tools/generate_translations.py:50-84 | against a loaded table, the value is the stored translation if any, else the base text |
| Translations.Merged | app/tools/generate_translations.py:42-53 | the document goes in folder `values-<locale>` and lists the base keys in base order |
| Translations.WriteStrings | app/tools/generate_translations.py:42-61 | the loop emits one string per base entry, in order, with its merged value |
| Translations.EarlyEnd | app/tools/generate_translations.py:90-95 | a missing input or a failed load ends with status 1 and writes nothing |
| Translations.RunToolAsWritten | app/tools/generate_translations.py:88-101 | main as written: status 1 when an input is missing, and never any document written |
| Translations.RunTool | app/tools/generate_translations.py:88-101 | corrected main: after a successful load, one merged document per locale, in locale order |
| Translations.RunToolAsWrittenWritesNothing | app/tools/generate_translations.py:97-101 | a valid CSV with one locale still produces no document from main as written |
| Calculator.SegmentIsSuffix | app/src/main/kotlin/com/joviansapps/ganymede/viewmodel/CalculatorViewModel.kt:198-199 | the segment being typed is the longest suffix without a `+*/^()-` separator: it holds none of them, and the character before it is one |
| Calculator.FunctionText | app/src/main/kotlin/com/joviansapps/ganymede/viewmodel/CalculatorViewModel.kt:241-245 | a name ending in "(" or holding "^" is inserted as is; any other name gets an opening parenthesis |
| Calculator.RemoveAt | app/src/main/kotlin/com/joviansapps/ganymede/viewmodel/CalculatorViewModel.kt:274-278 | removing a history entry drops exactly that index, and an index outside the list changes nothing |
| Calculator.DecimalAppendsOnlyWithoutPoint | app/src/main/kotlin/com/joviansapps/ganymede/viewmodel/CalculatorViewModel.kt:193-212 | the decimal key only appends, does nothing iff the segment already has a point, and appends "0." exactly when the segment is empty (after an operator or a parenthesis, or on an empty expression), "." otherwise |
| Calculator.DecimalKeepsOnePoint | app/src/main/kotlin/com/joviansapps/ganymede/viewmodel/CalculatorViewModel.kt:193-212 | after the key the segment holds a point, and never two unless it already had them |
| Calculator.OperatorReplacesTrailing | app/src/main/kotlin/com/joviansapps/ganymede/viewmodel/CalculatorViewModel.kt:214-227 | any operator key, "%" included, is ignored on an empty expression, replaces a trailing operator, is appended otherwise, and never creates two operators in a row |
| Calculator.DeleteDropsLast | app/src/main/kotlin/com/joviansapps/ganymede/viewmodel/CalculatorViewModel.kt:254-262 | delete drops exactly the last character and leaves history and result alone; an empty expression is unchanged |
| Calculator.EvaluateHistory | app/src/main/kotlin/com/joviansapps/ganymede/viewmodel/CalculatorViewModel.kt:325-353 | a blank expression changes nothing; a value appends exactly one history entry recording the expression and marks the state just evaluated; a failure leaves history alone |
| Calculator.SetExpressionEdit | app/src/main/kotlin/com/joviansapps/ganymede/viewmodel/CalculatorViewModel.kt:156-161 | the old expression is pushed on the undo stack and the redo stack is emptied |
| Calculator.UndoEdit | app/src/main/kotlin/com/joviansapps/ganymede/viewmodel/CalculatorViewModel.kt:167-173 | with an empty undo stack nothing changes; otherwise the top of the undo stack becomes the expression and the current one is pushed for redo |
| Calculator.RedoEdit | app/src/main/kotlin/com/joviansapps/ganymede/viewmodel/CalculatorViewModel.kt:175-181 | the mirror image of undo over the redo stack |
| Calculator.UndoRedoInverse | app/src/main/kotlin/com/joviansapps/ganymede/viewmodel/CalculatorViewModel.kt:167-181 | undo then redo, and redo then undo, restore expression and both stacks |
| Calculator.UndoAfterSet | app/src/main/kotlin/com/joviansapps/ganymede/viewmodel/CalculatorViewModel.kt:156-173 | undo right after setExpression restores the previous expression and undo stack |
| Calculator.DropTrailingOperator | app/src/main/kotlin/com/joviansapps/ganymede/viewmodel/CalculatorViewModel.kt:368 | exactly one trailing operator is removed, and nothing else |
| Calculator.CloseParenthesesBalances | app/src/main/kotlin/com/joviansapps/ganymede/viewmodel/CalculatorViewModel.kt:370-372 | missing ')' are appended: the expression is kept as a prefix and afterwards ')' are at least as many as '(' |
| Calculator.RenamedKeepsParentheses | app/src/main/kotlin/com/joviansapps/ganymede/viewmodel/CalculatorViewModel.kt:374-388 | the symbol and function renamings keep the numbers of '(' and ')' |
| Calculator.ModFix | app/src/main/kotlin/com/joviansapps/ganymede/viewmodel/CalculatorViewModel.kt:393-395 | the rewrite loop ends with no `a % b` pattern left |
| Calculator.Preprocess | app/src/main/kotlin/com/joviansapps/ganymede/viewmodel/CalculatorViewModel.kt:366-399 | the method with its while loop computes the preprocessing function and leaves no modulo pattern |
| Calculator.ModFixParentheses | app/src/main/kotlin/com/joviansapps/ganymede/viewmodel/CalculatorViewModel.kt:393-395 | rewriting `a % b` into `mod(a,b)` keeps the parenthesis balance |
| Text.WhitespaceClasses | app/src/main/kotlin/com/joviansapps/ganymede/viewmodel/CalculatorViewModel.kt:392 | every character of the regex class `\s` is blank for `isBlank()` and `strip()`, and the blank characters outside `\s` are exactly U+001C to U+001F |
| Calculator.PreprocessBalanced | app/src/main/kotlin/com/joviansapps/ganymede/viewmodel/CalculatorViewModel.kt:366-399 | the text handed to the evaluator never has more '(' than ')' and holds no modulo pattern |
| Calculator.CalculatorViewModel.constructor | app/src/main/kotlin/com/joviansapps/ganymede/viewmodel/CalculatorViewModel.kt:31-44 | the initial state: empty expression, result "0", empty history and stacks |
| Calculator.CalculatorViewModel.SetExpression | app/src/main/kotlin/com/joviansapps/ganymede/viewmodel/CalculatorViewModel.kt:156-161 | stacks change as SetExpressionEdit says; the expression is set and the status is Ready |
| Calculator.CalculatorViewModel.Undo | app/src/main/kotlin/com/joviansapps/ganymede/viewmodel/CalculatorViewModel.kt:167-173 | stacks and expression change as UndoEdit says; nothing changes with an empty undo stack |
| Calculator.CalculatorViewModel.Redo | app/src/main/kotlin/com/joviansapps/ganymede/viewmodel/CalculatorViewModel.kt:175-181 | stacks and expression change as RedoEdit says; nothing changes with an empty redo stack |
| Calculator.CalculatorViewModel.OnInputNumber | app/src/main/kotlin/com/joviansapps/ganymede/viewmodel/CalculatorViewModel.kt:183-191 | the state becomes InputNumber of the old one (after a result, the number starts a new expression); stacks untouched |
| Calculator.CalculatorViewModel.OnInputDecimal | app/src/main/kotlin/com/joviansapps/ganymede/viewmodel/CalculatorViewModel.kt:193-212 | the state becomes InputDecimal of the old one; stacks untouched |
| Calculator.CalculatorViewModel.OnInputOperator | app/src/main/kotlin/com/joviansapps/ganymede/viewmodel/CalculatorViewModel.kt:214-227 | the state becomes InputOperator of the old one (after a result the operator follows the result); stacks untouched |
| Calculator.CalculatorViewModel.OnInputParenthesis | app/src/main/kotlin/com/joviansapps/ganymede/viewmodel/CalculatorViewModel.kt:229-237 | the state becomes InputParenthesis of the old one; stacks untouched |
| Calculator.CalculatorViewModel.OnApplyFunction | app/src/main/kotlin/com/joviansapps/ganymede/viewmodel/CalculatorViewModel.kt:239-252 | the state becomes ApplyFunction of the old one; stacks untouched |
| Calculator.CalculatorViewModel.OnDelete | app/src/main/kotlin/com/joviansapps/ganymede/viewmodel/CalculatorViewModel.kt:254-262 | the state becomes Delete of the old one; stacks untouched |
| Calculator.CalculatorViewModel.OnClear | app/src/main/kotlin/com/joviansapps/ganymede/viewmodel/CalculatorViewModel.kt:264-266 | expression cleared, result "0", status Ready; history and stacks untouched |
| Calculator.CalculatorViewModel.OnRemoveHistoryItem | app/src/main/kotlin/com/joviansapps/ganymede/viewmodel/CalculatorViewModel.kt:274-278 | the history becomes RemoveAt of the old history; stacks untouched |
| Calculator.CalculatorViewModel.OnClearHistory | app/src/main/kotlin/com/joviansapps/ganymede/viewmodel/CalculatorViewModel.kt:280-283 | the history becomes empty; stacks untouched |
| Calculator.CalculatorViewModel.OnEvaluate | app/src/main/kotlin/com/joviansapps/ganymede/viewmodel/CalculatorViewModel.kt:325-353 | the state becomes Evaluate of the old one and the evaluator's outcome; stacks untouched |
| GraphParser.RemoveSpaces | app/src/main/kotlin/com/joviansapps/ganymede/graphing/FunctionLocal.kt:20 | the input loses every space and grows no longer |
| GraphParser.NumberEnd | app/src/main/kotlin/com/joviansapps/ganymede/graphing/FunctionLocal.kt:29 | the inner loop stops at the first character that is neither a digit nor '.', after a run of such characters |
| GraphParser.NameEnd | app/src/main/kotlin/com/joviansapps/ganymede/graphing/FunctionLocal.kt:36 | the inner loop stops at the first non-letter, after a run of letters |
| GraphParser.Scan | app/src/main/kotlin/com/joviansapps/ganymede/graphing/FunctionLocal.kt:24-51 | the input is cut into lexemes; there are none exactly when the input is exhausted |
| GraphParser.ScanSpells | app/src/main/kotlin/com/joviansapps/ganymede/graphing/FunctionLocal.kt:24-51 | the lexemes spell the input back: nothing is lost or reordered |
| GraphParser.ScanMaximal | app/src/main/kotlin/com/joviansapps/ganymede/graphing/FunctionLocal.kt:27-47 | runs are maximal: no number follows a number and no name follows a name |
| GraphParser.ScanWellFormed | app/src/main/kotlin/com/joviansapps/ganymede/graphing/FunctionLocal.kt:24-51 | every lexeme of a space-free input is a non-empty run, a comma, or one character of no run |
| GraphParser.NameToken | app/src/main/kotlin/com/joviansapps/ganymede/graphing/FunctionLocal.kt:38-42 | "pi" and "e", in any case, become their numeric values; other names are kept |
| GraphParser.Tokenize | app/src/main/kotlin/com/joviansapps/ganymede/graphing/FunctionLocal.kt:19-53 | the tokenizer loop produces exactly the tokens of the scanned lexemes |
| GraphParser.ReadNumber | app/src/main/kotlin/com/joviansapps/ganymede/graphing/FunctionLocal.kt:27-32 | the number branch consumes the whole run and emits it, followed by "*" before a letter or '(' |
| GraphParser.ReadName | app/src/main/kotlin/com/joviansapps/ganymede/graphing/FunctionLocal.kt:34-47 | the name branch consumes the whole run and emits the name or constant, with "*" when the rules ask for one |
| GraphParser.TokensClean | app/src/main/kotlin/com/joviansapps/ganymede/graphing/FunctionLocal.kt:20-48 | no token holds a space or a comma, and no token is "pi" or "e" |
| GraphParser.ImplicitMultiplication | app/src/main/kotlin/com/joviansapps/ganymede/graphing/FunctionLocal.kt:31-46 | "*" follows a number followed by a name or '(', and a name followed by a number, or by '(' when it is not a function name |
| GraphParser.Precedence | app/src/main/kotlin/com/joviansapps/ganymede/graphing/FunctionLocal.kt:57-58 | exactly the five operators and "u-" have a positive precedence |
| GraphParser.PopToOpen | app/src/main/kotlin/com/joviansapps/ganymede/graphing/FunctionLocal.kt:66-77 | popping stops with '(' on top or an empty stack, and moves tokens without losing any |
| GraphParser.PopForOperator | app/src/main/kotlin/com/joviansapps/ganymede/graphing/FunctionLocal.kt:69-71 | popping before a push moves operators to the output without losing any |
| GraphParser.OperatorFor | app/src/main/kotlin/com/joviansapps/ganymede/graphing/FunctionLocal.kt:68 | "-" at the start or after an operator, '(' or ',' becomes "u-"; every other operator is itself |
| GraphParser.Flush | app/src/main/kotlin/com/joviansapps/ganymede/graphing/FunctionLocal.kt:81 | the final flush moves the whole stack to the output |
| GraphParser.ShuntingYard | app/src/main/kotlin/com/joviansapps/ganymede/graphing/FunctionLocal.kt:54-83 | the conversion loop, with its inner popping loops, computes exactly the RPN function |
| GraphParser.Feed | app/src/main/kotlin/com/joviansapps/ganymede/graphing/FunctionLocal.kt:63-79 | one loop iteration is one step of the converter |
| GraphParser.PopOperators | app/src/main/kotlin/com/joviansapps/ganymede/graphing/FunctionLocal.kt:69-71 | the popping loop computes PopForOperator |
| GraphParser.PopUntilOpen | app/src/main/kotlin/com/joviansapps/ganymede/graphing/FunctionLocal.kt:66-77 | the popping loop computes PopToOpen |
| GraphParser.NumberText | app/src/main/kotlin/com/joviansapps/ganymede/graphing/FunctionLocal.kt:64 | only text with a digit, "NaN" or "Infinity" parses as a number |
| GraphParser.RpnKeepsValues | app/src/main/kotlin/com/joviansapps/ganymede/graphing/FunctionLocal.kt:64 | numbers and "x" reach the output exactly once each, in input order |
| GraphParser.RpnNoCloser | app/src/main/kotlin/com/joviansapps/ganymede/graphing/FunctionLocal.kt:66-77 | ')' and ',' never reach the output |
| GraphParser.RightAssociative | app/src/main/kotlin/com/joviansapps/ganymede/graphing/FunctionLocal.kt:59-71 | a ^ b ^ c becomes a b c ^ ^ |
| GraphParser.LeftAssociative | app/src/main/kotlin/com/joviansapps/ganymede/graphing/FunctionLocal.kt:71 | for the other binary operators a op b op c becomes a b op c op |
| GraphParser.UnaryMinus | app/src/main/kotlin/com/joviansapps/ganymede/graphing/FunctionLocal.kt:68-69 | a * - b becomes a b u- * |
| DateCalculator.DaysInMonth | app/src/main/kotlin/com/joviansapps/ganymede/viewmodel/DateCalculatorViewModel.kt:99-102 | a month has 28 to 31 days, and February has 29 exactly in a Gregorian leap year |
| DateCalculator.DaysBeforeMonth | app/src/main/kotlin/com/joviansapps/ganymede/viewmodel/DateCalculatorViewModel.kt:74-75 | the days of a year before a month's first day lie between 0 and 335 |
| DateCalculator.NextDay | app/src/main/kotlin/com/joviansapps/ganymede/viewmodel/DateCalculatorViewModel.kt:102 | the next day has the next day number |
| DateCalculator.PrevDay | app/src/main/kotlin/com/joviansapps/ganymede/viewmodel/DateCalculatorViewModel.kt:102 | the previous day has the previous day number |
| DateCalculator.PlusDays | app/src/main/kotlin/com/joviansapps/ganymede/viewmodel/DateCalculatorViewModel.kt:102 | on the unbounded calendar, adding n days moves the day number by exactly n, in either direction |
| DateCalculator.CheckedPlusDays | app/src/main/kotlin/com/joviansapps/ganymede/viewmodel/DateCalculatorViewModel.kt:102 | as `plusDays`: a returned date is n days on; from a supported date it returns exactly when that date's year is within ±999,999,999, and throws otherwise |
| DateCalculator.ResolvePreviousValid | app/src/main/kotlin/com/joviansapps/ganymede/viewmodel/DateCalculatorViewModel.kt:100-101 | a day past the month's end is clamped to the month's last day; year and month are kept |
| DateCalculator.PlusMonths | app/src/main/kotlin/com/joviansapps/ganymede/viewmodel/DateCalculatorViewModel.kt:101 | on the unbounded calendar, the month count moves by n, and the day is kept, or clamped to the end of a shorter month |
| DateCalculator.CheckedPlusMonths | app/src/main/kotlin/com/joviansapps/ganymede/viewmodel/DateCalculatorViewModel.kt:101 | as `plusMonths`: a returned date is n months on; from a supported date it returns exactly when the new year is within ±999,999,999, and throws otherwise |
| DateCalculator.PlusYears | app/src/main/kotlin/com/joviansapps/ganymede/viewmodel/DateCalculatorViewModel.kt:100 | on the unbounded calendar, the year moves by n, the month is kept, and the day is kept unless it does not exist (29 February) |
| DateCalculator.CheckedPlusYears | app/src/main/kotlin/com/joviansapps/ganymede/viewmodel/DateCalculatorViewModel.kt:100 | as `plusYears`: a returned date has year + n; from a supported date it returns exactly when year + n is within ±999,999,999, and throws otherwise |
| DateCalculator.DayNumberInjective | app/src/main/kotlin/com/joviansapps/ganymede/viewmodel/DateCalculatorViewModel.kt:75 | different dates have different day numbers |
| DateCalculator.MonthOrder | app/src/main/kotlin/com/joviansapps/ganymede/viewmodel/DateCalculatorViewModel.kt:74 | a date in an earlier month comes earlier |
| DateCalculator.DaysBetweenPlusDays | app/src/main/kotlin/com/joviansapps/ganymede/viewmodel/DateCalculatorViewModel.kt:75-102 | the total-days count undoes adding days, and adding it to the start reaches the end |
| DateCalculator.PeriodAddsUp | app/src/main/kotlin/com/joviansapps/ganymede/viewmodel/DateCalculatorViewModel.kt:74-79 | from an earlier date the period has non-negative years and days and 0 to 11 months, and adding them to the start gives the end |
| DateCalculator.PeriodBorrowing | app/src/main/kotlin/com/joviansapps/ganymede/viewmodel/DateCalculatorViewModel.kt:74 | the same, when the end's day of month is smaller than the start's |
| DateCalculator.PeriodNotBorrowing | app/src/main/kotlin/com/joviansapps/ganymede/viewmodel/DateCalculatorViewModel.kt:74 | the same, when it is not |
| DateCalculator.RawTextParts | app/src/main/kotlin/com/joviansapps/ganymede/viewmodel/DateCalculatorViewModel.kt:81-87 | before trimming the text is the total-days head and the positive parts, with a trailing space unless days are printed |
| DateCalculator.DifferenceTextShape | app/src/main/kotlin/com/joviansapps/ganymede/viewmodel/DateCalculatorViewModel.kt:81-88 | the text is "<total> total days", a newline, "Which is:", then " <n> years", " <n> months" and " <n> days" for exactly the positive parts, with no trailing space |
| DateCalculator.LongOrZero | app/src/main/kotlin/com/joviansapps/ganymede/viewmodel/DateCalculatorViewModel.kt:95-97 | a field that is not a 64-bit integer counts as 0; otherwise its value is used |
| DateCalculator.EasterDate | app/src/main/kotlin/com/joviansapps/ganymede/viewmodel/DateCalculatorViewModel.kt:117-132 | for a positive year the date is in that year, between 22 March and 25 April |
| DateCalculator.AddSubtractInRange | app/src/main/kotlin/com/joviansapps/ganymede/viewmodel/DateCalculatorViewModel.kt:99-102 | from a supported date, years then months then days are added, and the calculation throws exactly when one of the three intermediate dates leaves the supported years |
| DateCalculator.AddSubtractZero | app/src/main/kotlin/com/joviansapps/ganymede/viewmodel/DateCalculatorViewModel.kt:94-102 | adding "0" years, months and days gives the date back |
| DateCalculator.EasterOf | app/src/main/kotlin/com/joviansapps/ganymede/viewmodel/DateCalculatorViewModel.kt:111-132 | no Easter date exactly when the year text is not a 32-bit integer or not positive; `LocalDate.of` throws exactly for a year beyond 999,999,999; otherwise a supported date in that year, in March or April |
| DateCalculator.EasterOfWrittenYear | app/src/main/kotlin/com/joviansapps/ganymede/viewmodel/DateCalculatorViewModel.kt:111-132 | a written positive year up to 999,999,999 gives its Easter date; a larger 32-bit year throws |
| DateCalculator.Easter2024 | app/src/main/kotlin/com/joviansapps/ganymede/viewmodel/DateCalculatorViewModel.kt:117-132 | the algorithm gives 31 March 2024 |
| DateCalculator.Easter2025 | app/src/main/kotlin/com/joviansapps/ganymede/viewmodel/DateCalculatorViewModel.kt:117-132 | the algorithm gives 20 April 2025 |
| DateCalculator.Recalculate | app/src/main/kotlin/com/joviansapps/ganymede/viewmodel/DateCalculatorViewModel.kt:64-66 | it throws exactly when adding to the date or the Easter date throws; otherwise the three results are recomputed from the inputs, and the inputs are left alone |
| DateCalculator.EventTouchesOnlyTarget | app/src/main/kotlin/com/joviansapps/ganymede/viewmodel/DateCalculatorViewModel.kt:52-63 | an event changes only the input it names, and sets that input to the event's value, for each of the seven events |
| DateCalculator.DateCalculatorViewModel.constructor | app/src/main/kotlin/com/joviansapps/ganymede/viewmodel/DateCalculatorViewModel.kt:14-50 | today is the start date and the add/subtract date, tomorrow the end date, this year the Easter year; all results are computed, or the app has crashed when a calculation threw |
| DateCalculator.DateCalculatorViewModel.OnEvent | app/src/main/kotlin/com/joviansapps/ganymede/viewmodel/DateCalculatorViewModel.kt:52-67 | the state is the event applied to the old state, then recalculated; the app has crashed exactly when the recalculation throws |
| Conversion.Lift | app/src/main/kotlin/com/joviansapps/ganymede/data/conversion/AdditionalUnits.kt:105-106 | arithmetic on a value keeps NaN as NaN and numbers as numbers |
| Conversion.Unit.Category | app/src/main/kotlin/com/joviansapps/ganymede/data/conversion/ConverterUnits.kt:37-57 | temperature, fuel and radix units have their fixed category; a factor unit has the one it was built with |
| Conversion.FactorRoundTrip | app/src/main/kotlin/com/joviansapps/ganymede/data/conversion/ConverterUnits.kt:40-41 | a factor unit multiplies into the base and divides back out, and the two directions undo each other |
| Conversion.FactorToFactor | app/src/main/kotlin/com/joviansapps/ganymede/data/conversion/ConverterUnits.kt:40-41 | between factor units a value is scaled by the ratio of the factors |
| Conversion.CelsiusIdentity | app/src/main/kotlin/com/joviansapps/ganymede/data/conversion/TemperatureUnits.kt:6 | Celsius is the base: both directions are the identity |
| Conversion.TemperatureRoundTrip | app/src/main/kotlin/com/joviansapps/ganymede/data/conversion/TemperatureUnits.kt:7-8 | Fahrenheit and Kelvin convert back to the value they started from |
| Conversion.TemperatureFixedPoints | app/src/main/kotlin/com/joviansapps/ganymede/data/conversion/TemperatureUnits.kt:6-8 | 32 °F is 0 °C, 100 °C is 212 °F, 273.15 K is 0 °C, and -40 °F converts to itself |
| Conversion.FuelReciprocal | app/src/main/kotlin/com/joviansapps/ganymede/data/conversion/AdditionalUnits.kt:110-111 | km/L maps x to 100/x (0 to 0) and is its own inverse |
| Conversion.StorageFactors | app/src/main/kotlin/com/joviansapps/ganymede/data/conversion/AdditionalUnits.kt:17-23 | the storage factors are 1, 8, 8·1024, 8·1024² and 8·1024³ bits, so 1 GB is 1073741824 bytes |
| Conversion.DefaultUnit | app/src/main/kotlin/com/joviansapps/ganymede/data/conversion/ConverterUnits.kt:88 | the default unit is one of the category's units |
| Conversion.UnitsShape | app/src/main/kotlin/com/joviansapps/ganymede/data/conversion/ConverterUnits.kt:64-86 | every category's table is non-empty, holds only units of that category, and every factor is positive |
| Conversion.ConvertToItself | app/src/main/kotlin/com/joviansapps/ganymede/data/conversion/ConverterUnit.kt:15-17 | converting a unit to itself is the identity, except for the numeric bases |
| Conversion.DefaultIsBase | app/src/main/kotlin/com/joviansapps/ganymede/data/conversion/ConverterUnits.kt:88 | outside the numeric bases the default unit is the base unit |
| Conversion.RadixNotIdentity | app/src/main/kotlin/com/joviansapps/ganymede/data/conversion/AdditionalUnits.kt:158-167 | base 2 to base 2 is not the identity: 5 becomes 0 because its digit is not binary |
| Conversion.ToLong | app/src/main/kotlin/com/joviansapps/ganymede/data/conversion/AdditionalUnits.kt:159 | Double to Long truncates toward zero and clamps to the Long range; NaN gives 0 |
| Conversion.FloorToLong | app/src/main/kotlin/com/joviansapps/ganymede/data/conversion/AdditionalUnits.kt:169 | floor then toLong: clamped to the Long range, the floor for non-negative values, negative for negative values |
| Conversion.RadixDigits | app/src/main/kotlin/com/joviansapps/ganymede/data/conversion/AdditionalUnits.kt:172-176 | the digits of n in a radix up to 10 are decimal digits below the radix |
| Conversion.RadixFromBadDigit | app/src/main/kotlin/com/joviansapps/ganymede/data/conversion/AdditionalUnits.kt:163 | a digit at least the radix makes the reading NaN |
| Conversion.RadixFromNatural | app/src/main/kotlin/com/joviansapps/ganymede/data/conversion/AdditionalUnits.kt:158-167 | a whole number whose digits are below the radix is read as a numeral in that radix; otherwise NaN |
| Conversion.RadixRoundTrip | app/src/main/kotlin/com/joviansapps/ganymede/data/conversion/AdditionalUnits.kt:158-178 | a whole number comes back from its radix digits when those digits, read in decimal, are at most 2^53, so that `toDoubleOrNull` reads them exactly |
| Conversion.RadixFromDigits | app/src/main/kotlin/com/joviansapps/ganymede/data/conversion/AdditionalUnits.kt:158-166 | the decimal value of the radix digits of n (1 <= n <= 2^53), when it fits in a Long, is read back as n |
| Conversion.RadixToWhole | app/src/main/kotlin/com/joviansapps/ganymede/data/conversion/AdditionalUnits.kt:168-177 | for a positive whole number, `convertTo` gives its radix digits read in decimal and rounded to the nearest double |
| Conversion.BinaryPowerDigits | app/src/main/kotlin/com/joviansapps/ganymede/data/conversion/AdditionalUnits.kt:171-176 | the binary digits of 2^k read in decimal as 10^k |
| Conversion.BinaryPowerPlusOneDigits | app/src/main/kotlin/com/joviansapps/ganymede/data/conversion/AdditionalUnits.kt:171-176 | the binary digits of 2^k + 1 read in decimal as 10^k + 1 |
| Conversion.RoundTie | app/src/main/kotlin/com/joviansapps/ganymede/data/conversion/AdditionalUnits.kt:177 | `toDoubleOrNull` of "10000000000000001" is 10^16: a tie goes to the even neighbour |
| Conversion.RoundedRoundTrip | app/src/main/kotlin/com/joviansapps/ganymede/data/conversion/AdditionalUnits.kt:158-178 | past 2^53 the round trip fails: 65537 in base 2 comes back as 65536 |
| Conversion.BinaryRoundTripOverflow | app/src/main/kotlin/com/joviansapps/ganymede/data/conversion/AdditionalUnits.kt:159-177 | in base 2 the round trip gives NaN whenever the binary digits read in decimal exceed the Long range |
| Conversion.RoundPastLong | app/src/main/kotlin/com/joviansapps/ganymede/data/conversion/AdditionalUnits.kt:177 | a whole number past the Long range stays past it when rounded to a double |
| Conversion.ClampedReadingFails | app/src/main/kotlin/com/joviansapps/ganymede/data/conversion/AdditionalUnits.kt:159-163 | in base 2 every double past the Long range reads as NaN, since `toLong` clamps it to LONG_MAX, whose last digit is 7 |
| Conversion.RadixToSign | app/src/main/kotlin/com/joviansapps/ganymede/data/conversion/AdditionalUnits.kt:169-172 | negative numbers have no digits and give NaN; values in [0, 1) give 0 |
| Conversion.RadixFromNegative | app/src/main/kotlin/com/joviansapps/ganymede/data/conversion/AdditionalUnits.kt:159-164 | a '-' sign is read as the digit -3, so -1 in base 2 reads as -5 |
| Text.RoundToDouble | app/src/main/kotlin/com/joviansapps/ganymede/data/conversion/AdditionalUnits.kt:177 | a whole number is a double exactly up to 2^53; past it, it is rounded to the nearest multiple of the spacing of doubles there, ties to even |
| Text.LongToDouble | app/src/main/kotlin/com/joviansapps/ganymede/data/conversion/AdditionalUnits.kt:166 | `Long.toDouble()` is exact between -2^53 and 2^53 |
| Text.RoundAtLeastPow2 | app/src/main/kotlin/com/joviansapps/ganymede/data/conversion/AdditionalUnits.kt:177 | rounding to a double never goes below a power of two that the number reaches |
| Text.WrapLong | app/src/main/kotlin/com/joviansapps/ganymede/data/conversion/AdditionalUnits.kt:164 | Long arithmetic: the result is in the Long range, congruent to the exact value modulo 2^64, and the exact value itself when that fits |
| Conversion.Accumulate | app/src/main/kotlin/com/joviansapps/ganymede/data/conversion/AdditionalUnits.kt:160-165 | the accumulator is always a Long: each step wraps `acc * radix + d` around like Long arithmetic |
| Conversion.AccumulateDigits | app/src/main/kotlin/com/joviansapps/ganymede/data/conversion/AdditionalUnits.kt:160-165 | digits below the radix whose value fits in a Long are read as that value, with no wrap-around |
| Conversion.RadixValueAtMostDecimal | app/src/main/kotlin/com/joviansapps/ganymede/data/conversion/AdditionalUnits.kt:158-165 | digits below a radix of at most 10 are worth no more in that radix than in decimal |
| Conversion.NegativeDecimalReading | app/src/main/kotlin/com/joviansapps/ganymede/data/conversion/AdditionalUnits.kt:159-165 | in base 10 the '-' of a negative number reads as the digit -3, and the reading wraps modulo 2^64 |
| Conversion.RadixFromNegativeDecimal | app/src/main/kotlin/com/joviansapps/ganymede/data/conversion/AdditionalUnits.kt:158-167 | base 10 reads a negative whole number -n as n - 3 * 10^(digits of n), wrapped into the Long range |
| Conversion.RadixConvertFrom | app/src/main/kotlin/com/joviansapps/ganymede/data/conversion/AdditionalUnits.kt:158-167 | the digit loop, with its Long accumulator wrapping around, computes RadixFrom |
| Conversion.RadixConvertTo | app/src/main/kotlin/com/joviansapps/ganymede/data/conversion/AdditionalUnits.kt:168-178 | the method computes RadixTo |
| Conversion.WriteDigits | app/src/main/kotlin/com/joviansapps/ganymede/data/conversion/AdditionalUnits.kt:171-177 | the loop writes the radix digits of a positive n, least significant first, then reverses them; a negative n gives NaN |
| SmdResistor.Eia96Value | app/src/main/kotlin/com/joviansapps/ganymede/ui/screens/utilities/electronics/SmdResistorCalculatorScreen.kt:37-50 | the EIA-96 table has a value exactly for the two-digit keys "01" to "96" |
| SmdResistor.FormatOf | app/src/main/kotlin/com/joviansapps/ganymede/ui/screens/utilities/electronics/SmdResistorCalculatorScreen.kt:74-93 | a code is read with the 'R' rule exactly when it contains 'R' |
| SmdResistor.BlankCode | app/src/main/kotlin/com/joviansapps/ganymede/ui/screens/utilities/electronics/SmdResistorCalculatorScreen.kt:68-71 | a blank code, and only a blank code, clears both the resistance and the error |
| SmdResistor.RCode | app/src/main/kotlin/com/joviansapps/ganymede/ui/screens/utilities/electronics/SmdResistorCalculatorScreen.kt:76-78 | a code with 'R' is the decimal number written with 'R' as the point; when that text does not parse it fails with "multiple points" if a second point lies in its leading run of digits and points, and with `For input string: "<text>"` otherwise |
| SmdResistor.SecondPointRejected | app/src/main/kotlin/com/joviansapps/ganymede/ui/screens/utilities/electronics/SmdResistorCalculatorScreen.kt:76-78 | a text whose leading run of digits and points holds two points never parses as a number |
| SmdResistor.MultiplePointsExamples | app/src/main/kotlin/com/joviansapps/ganymede/ui/screens/utilities/electronics/SmdResistorCalculatorScreen.kt:76-78 | 4R7R and RR fail with "multiple points" |
| SmdResistor.DigitCode | app/src/main/kotlin/com/joviansapps/ganymede/ui/screens/utilities/electronics/SmdResistorCalculatorScreen.kt:80-84 | three or four digits give the leading digits times ten to the power of the last digit |
| SmdResistor.Eia96Code | app/src/main/kotlin/com/joviansapps/ganymede/ui/screens/utilities/electronics/SmdResistorCalculatorScreen.kt:86-92 | two digits and a multiplier letter give the table value times the multiplier; digits missing from the table give the EIA-96 error |
| SmdResistor.Eia96NeverUsesR | app/src/main/kotlin/com/joviansapps/ganymede/ui/screens/utilities/electronics/SmdResistorCalculatorScreen.kt:52-86 | the 'R' entry of the multiplier table can never be used, because the 'R' rule is tried first |
| SmdResistor.OtherCodes | app/src/main/kotlin/com/joviansapps/ganymede/ui/screens/utilities/electronics/SmdResistorCalculatorScreen.kt:93 | any other non-blank code is an unrecognised format, with no resistance |
| SmdResistor.DigitExamples | app/src/main/kotlin/com/joviansapps/ganymede/ui/screens/utilities/electronics/SmdResistorCalculatorScreen.kt:80-84 | 103 and 1002 are both 10 kΩ |
| SmdResistor.Eia96Examples | app/src/main/kotlin/com/joviansapps/ganymede/ui/screens/utilities/electronics/SmdResistorCalculatorScreen.kt:86-92 | 01A is 100 Ω, 96F is 97.6 MΩ, and 00A is an invalid EIA-96 code |
| SmdResistor.ShortCodeExample | app/src/main/kotlin/com/joviansapps/ganymede/ui/screens/utilities/electronics/SmdResistorCalculatorScreen.kt:93 | a two-digit code is no format at all |
| SmdResistor.TypedCodesAreFinite | app/src/main/kotlin/com/joviansapps/ganymede/ui/screens/utilities/electronics/SmdResistorCalculatorScreen.kt:61-77 | since typed codes are upper-cased, the 'R' rule never reads "NaN" or "Infinity": every resistance is finite |
| SmdResistor.Decode | app/src/main/kotlin/com/joviansapps/ganymede/ui/screens/utilities/electronics/SmdResistorCalculatorScreen.kt:65-99 | the code is kept; a blank code has neither resistance nor error; any other code has exactly one of them |
| SmdResistor.SmdResistorViewModel.constructor | app/src/main/kotlin/com/joviansapps/ganymede/ui/screens/utilities/electronics/SmdResistorCalculatorScreen.kt:26-30 | the initial code "103" is decoded to 10 kΩ |
| SmdResistor.SmdResistorViewModel.OnCodeChange | app/src/main/kotlin/com/joviansapps/ganymede/ui/screens/utilities/electronics/SmdResistorCalculatorScreen.kt:60-63 | the code is stored upper-cased and decoded |
| CapacitorCode.Picofarads | app/src/main/kotlin/com/joviansapps/ganymede/ui/screens/utilities/electronics/CapacitorCodeCalculatorScreen.kt:70-75 | the value from the digits is never negative |
| CapacitorCode.BlankCode | app/src/main/kotlin/com/joviansapps/ganymede/ui/screens/utilities/electronics/CapacitorCodeCalculatorScreen.kt:56-59 | a blank code, and only a blank code, clears the capacitance, the tolerance and the error |
| CapacitorCode.SeparatorCodeIsBlank | app/src/main/kotlin/com/joviansapps/ganymede/ui/screens/utilities/electronics/CapacitorCodeCalculatorScreen.kt:56-59 | example of `CapacitorCode.BlankCode`: a code made only of information separators is blank, so it clears the fields instead of reporting an error |
| CapacitorCode.DigitCount | app/src/main/kotlin/com/joviansapps/ganymede/ui/screens/utilities/electronics/CapacitorCodeCalculatorScreen.kt:63-68 | a non-blank code fails exactly when it holds fewer than 3 or more than 4 digits, and then reports that error |
| CapacitorCode.FourthDigitIgnored | app/src/main/kotlin/com/joviansapps/ganymede/ui/screens/utilities/electronics/CapacitorCodeCalculatorScreen.kt:70-75 | the value is the first two digits times ten to the power of the third; a fourth digit changes nothing |
| CapacitorCode.ToleranceRule | app/src/main/kotlin/com/joviansapps/ganymede/ui/screens/utilities/electronics/CapacitorCodeCalculatorScreen.kt:64-78 | a known letter gives its tolerance and an unknown letter none; with no letter, three digits give the default ±20% and four digits none |
| CapacitorCode.FilterDigitsAppend | app/src/main/kotlin/com/joviansapps/ganymede/ui/screens/utilities/electronics/CapacitorCodeCalculatorScreen.kt:63 | the digits are taken in their order in the code, skipping everything else |
| CapacitorCode.Examples | app/src/main/kotlin/com/joviansapps/ganymede/ui/screens/utilities/electronics/CapacitorCodeCalculatorScreen.kt:70-78 | 104K is 100 nF at ±10%, 103 gets the default tolerance, and 1A2 has too few digits |
| CapacitorCode.Decode | app/src/main/kotlin/com/joviansapps/ganymede/ui/screens/utilities/electronics/CapacitorCodeCalculatorScreen.kt:53-98 | the code is kept; an error clears capacitance and tolerance; a non-blank code has exactly one of a capacitance and an error |
| CapacitorCode.CapacitorCodeViewModel.constructor | app/src/main/kotlin/com/joviansapps/ganymede/ui/screens/utilities/electronics/CapacitorCodeCalculatorScreen.kt:26-31 | the initial code "104K" is decoded to 100000 pF at ±10% |
| CapacitorCode.CapacitorCodeViewModel.OnCodeChange | app/src/main/kotlin/com/joviansapps/ganymede/ui/screens/utilities/electronics/CapacitorCodeCalculatorScreen.kt:48-51 | the code is stored upper-cased and decoded |
| MolarMass.AtomicMass | app/src/main/kotlin/com/joviansapps/ganymede/ui/screens/utilities/chemistry/MolarMassCalculatorScreen.kt:37-62 | every element of the table has a positive standard atomic mass |
| MolarMass.SymbolEnd | app/src/main/kotlin/com/joviansapps/ganymede/ui/screens/utilities/chemistry/MolarMassCalculatorScreen.kt:92 | an element symbol is one upper-case letter, plus a lower-case one exactly when one follows |
| MolarMass.DigitsEnd | app/src/main/kotlin/com/joviansapps/ganymede/ui/screens/utilities/chemistry/MolarMassCalculatorScreen.kt:92 | the count is the longest run of digits after the symbol |
| MolarMass.MatchAt | app/src/main/kotlin/com/joviansapps/ganymede/ui/screens/utilities/chemistry/MolarMassCalculatorScreen.kt:92 | a match is a one- or two-letter symbol starting upper-case, then digits, covering a prefix of the text |
| MolarMass.JoinedIffTiles | app/src/main/kotlin/com/joviansapps/ganymede/ui/screens/utilities/chemistry/MolarMassCalculatorScreen.kt:93-103 | the joined matches equal the formula exactly when the matches tile it |
| MolarMass.TilesIffWellFormed | app/src/main/kotlin/com/joviansapps/ganymede/ui/screens/utilities/chemistry/MolarMassCalculatorScreen.kt:102-103 | the tiling holds exactly when every character is an upper-case letter, a lower-case letter right after one, or a digit after a symbol |
| MolarMass.FindAllEmpty | app/src/main/kotlin/com/joviansapps/ganymede/ui/screens/utilities/chemistry/MolarMassCalculatorScreen.kt:93-96 | no match is found exactly when the formula holds no upper-case letter |
| MolarMass.CountOf | app/src/main/kotlin/com/joviansapps/ganymede/ui/screens/utilities/chemistry/MolarMassCalculatorScreen.kt:113-114 | no digits count 1; otherwise the digits read as a 32-bit Int, which fails when too large |
| MolarMass.TotalIsSum | app/src/main/kotlin/com/joviansapps/ganymede/ui/screens/utilities/chemistry/MolarMassCalculatorScreen.kt:110-119 | when every element is known and every count parses, the total is the sum of mass times count |
| MolarMass.TotalFirstError | app/src/main/kotlin/com/joviansapps/ganymede/ui/screens/utilities/chemistry/MolarMassCalculatorScreen.kt:111-117 | when some match fails, the result is the first failing match's error |
| MolarMass.ParseFormula | app/src/main/kotlin/com/joviansapps/ganymede/ui/screens/utilities/chemistry/MolarMassCalculatorScreen.kt:90-120 | the method with its loop computes the formula's outcome |
| MolarMass.Rejected | app/src/main/kotlin/com/joviansapps/ganymede/ui/screens/utilities/chemistry/MolarMassCalculatorScreen.kt:96-108 | a non-blank malformed formula is an error: the bracket message when it holds a bracket and some element, otherwise the format message |
| MolarMass.Accepted | app/src/main/kotlin/com/joviansapps/ganymede/ui/screens/utilities/chemistry/MolarMassCalculatorScreen.kt:110-119 | a well-formed formula gets the sum of its contributions, or the first failing contribution's error |
| MolarMass.MassOnlyWhenWellFormed | app/src/main/kotlin/com/joviansapps/ganymede/ui/screens/utilities/chemistry/MolarMassCalculatorScreen.kt:102-108 | only a well-formed formula gets a mass |
| MolarMass.WaterExample | app/src/main/kotlin/com/joviansapps/ganymede/ui/screens/utilities/chemistry/MolarMassCalculatorScreen.kt:90-120 | H2O is two H and one O: 2·1.008 + 15.999 |
| MolarMass.SaltSymbols | app/src/main/kotlin/com/joviansapps/ganymede/ui/screens/utilities/chemistry/MolarMassCalculatorScreen.kt:92-93 | NaCl is read as Na then Cl |
| MolarMass.BadCharacter | app/src/main/kotlin/com/joviansapps/ganymede/ui/screens/utilities/chemistry/MolarMassCalculatorScreen.kt:102-103 | a character that is neither a letter nor a digit makes a formula malformed |
| MolarMass.StrayCharacterExample | app/src/main/kotlin/com/joviansapps/ganymede/ui/screens/utilities/chemistry/MolarMassCalculatorScreen.kt:103-107 | H2_O is a format error |
| MolarMass.BracketExample | app/src/main/kotlin/com/joviansapps/ganymede/ui/screens/utilities/chemistry/MolarMassCalculatorScreen.kt:104-105 | (OH)2 is rejected because brackets are not supported |
| MolarMass.LowerCaseExample | app/src/main/kotlin/com/joviansapps/ganymede/ui/screens/utilities/chemistry/MolarMassCalculatorScreen.kt:96-97 | h2o holds no element and is a format error |
| MolarMass.UnknownElementExample | app/src/main/kotlin/com/joviansapps/ganymede/ui/screens/utilities/chemistry/MolarMassCalculatorScreen.kt:115 | Xx is an unknown element, named in the message |
| MolarMass.Calculated | app/src/main/kotlin/com/joviansapps/ganymede/ui/screens/utilities/chemistry/MolarMassCalculatorScreen.kt:73-87 | the formula is kept; a blank formula has neither result nor error; any other formula has exactly one, and a result only when well formed |
| MolarMass.MolarMassViewModel.constructor | app/src/main/kotlin/com/joviansapps/ganymede/ui/screens/utilities/chemistry/MolarMassCalculatorScreen.kt:25-29 | the initial formula "H2O" is computed at construction |
| MolarMass.MolarMassViewModel.OnFormulaChange | app/src/main/kotlin/com/joviansapps/ganymede/ui/screens/utilities/chemistry/MolarMassCalculatorScreen.kt:68-71 | the formula is stored, then computed |
| MolarMass.MolarMassViewModel.Calculate | app/src/main/kotlin/com/joviansapps/ganymede/ui/screens/utilities/chemistry/MolarMassCalculatorScreen.kt:73-87 | the stored formula's result and error are recomputed |
| AsciiTables.Lookup | app/src/main/kotlin/com/joviansapps/ganymede/ui/screens/ressources/ASCIITablesScreen.kt:214-243 | a table keyed by consecutive codes has an entry exactly for the codes it spans |
| AsciiTables.TablesCoverAllCodes | app/src/main/kotlin/com/joviansapps/ganymede/ui/screens/ressources/ASCIITablesScreen.kt:151-212 | the three tables hold 32, 96 and 128 entries and together list every code from 0 to 255 once, in order |
| AsciiTables.OctNumeral | app/src/main/kotlin/com/joviansapps/ganymede/ui/screens/ressources/ASCIITablesScreen.kt:172-203 | the octal column has exactly three digits, which read back as the code |
| AsciiTables.HexNumeral | app/src/main/kotlin/com/joviansapps/ganymede/ui/screens/ressources/ASCIITablesScreen.kt:173-204 | the hexadecimal column has exactly two upper-case digits, which read back as the code |
| AsciiTables.BinNumeral | app/src/main/kotlin/com/joviansapps/ganymede/ui/screens/ressources/ASCIITablesScreen.kt:174-205 | the binary column has exactly eight bits, which read back as the code |
| AsciiTables.HtmlShape | app/src/main/kotlin/com/joviansapps/ganymede/ui/screens/ressources/ASCIITablesScreen.kt:176-207 | the HTML column ends with the numeric reference, preceded by the named entity and " / " exactly when there is one |
| AsciiTables.NamedEntities | app/src/main/kotlin/com/joviansapps/ganymede/ui/screens/ressources/ASCIITablesScreen.kt:222-243 | named entities exist for the four HTML specials among the printable codes and for 160 to 255; control codes have none |
| AsciiTables.ControlEscapes | app/src/main/kotlin/com/joviansapps/ganymede/ui/screens/ressources/ASCIITablesScreen.kt:177 | only backspace, tab, line feed, form feed and carriage return have an escape, of two characters starting with a backslash |
| AsciiTables.PrintableEscapes | app/src/main/kotlin/com/joviansapps/ganymede/ui/screens/ressources/ASCIITablesScreen.kt:193 | only the double quote, the apostrophe and the backslash have an escape: a backslash then the character |
| AsciiTables.ExtendedEscapes | app/src/main/kotlin/com/joviansapps/ganymede/ui/screens/ressources/ASCIITablesScreen.kt:208 | extended codes have no escape |
| AsciiTables.PrintableSymbols | app/src/main/kotlin/com/joviansapps/ganymede/ui/screens/ressources/ASCIITablesScreen.kt:191 | the space is shown as the open-box symbol; every other printable code as itself |
| AsciiTables.ControlSymbols | app/src/main/kotlin/com/joviansapps/ganymede/ui/screens/ressources/ASCIITablesScreen.kt:163-168 | each control code is shown as its Control Pictures symbol, U+2400 plus the code |
| AsciiTables.LatinSymbols | app/src/main/kotlin/com/joviansapps/ganymede/ui/screens/ressources/ASCIITablesScreen.kt:206 | codes 160 to 255 are shown as the ISO 8859-1 character itself |
| CalculationCache.Without | app/src/main/kotlin/com/joviansapps/ganymede/data/cache/CalculationCache.kt:21 | removing a key from the access order keeps every other key, once each |
| CalculationCache.Touched | app/src/main/kotlin/com/joviansapps/ganymede/data/cache/CalculationCache.kt:10-14 | an access moves the key to the most recent end and keeps the keys distinct |
| CalculationCache.Cache.constructor | app/src/main/kotlin/com/joviansapps/ganymede/data/cache/CalculationCache.kt:9-11 | a new cache is empty, unlocked, with the given maximum size |
| CalculationCache.Cache.Get | app/src/main/kotlin/com/joviansapps/ganymede/data/cache/CalculationCache.kt:13-15 | with the mutex free: the stored value or none, and a hit becomes the most recently accessed; values are unchanged |
| CalculationCache.Cache.Insert | app/src/main/kotlin/com/joviansapps/ganymede/data/cache/CalculationCache.kt:18-23 | the previous value is returned, and order and values become those of put then eviction |
| CalculationCache.Cache.Put | app/src/main/kotlin/com/joviansapps/ganymede/data/cache/CalculationCache.kt:17-24 | with the mutex free: the previous value, then the new entry stored and the eldest evicted when over the maximum |
| CalculationCache.Cache.GetOrPut | app/src/main/kotlin/com/joviansapps/ganymede/data/cache/CalculationCache.kt:26-32 | as intended: a hit returns the cached value, computes nothing and makes the key the most recent; a miss computes the value, stores it with put's eviction and access order, and returns it |
| CalculationCache.Cache.GetOrPutAsWritten | app/src/main/kotlin/com/joviansapps/ganymede/data/cache/CalculationCache.kt:26-32 | as written: a hit returns the cached value and makes the key the most recent; a miss calls put under the held mutex and never returns, leaving the mutex held and the order unchanged |
| CalculationCache.Cache.Clear | app/src/main/kotlin/com/joviansapps/ganymede/data/cache/CalculationCache.kt:34-36 | with the mutex free, no entry is left |
| CalculationCache.Cache.Size | app/src/main/kotlin/com/joviansapps/ganymede/data/cache/CalculationCache.kt:38-40 | with the mutex free, the number of entries |
| CalculationCache.SizeOfKeys | app/src/main/kotlin/com/joviansapps/ganymede/data/cache/CalculationCache.kt:38-40 | the number of entries is the length of the access order |
| CalculationCache.PutKeepsBound | app/src/main/kotlin/com/joviansapps/ganymede/data/cache/CalculationCache.kt:19-22 | put never leaves more than the maximum number of entries |
| CalculationCache.EvictsEldest | app/src/main/kotlin/com/joviansapps/ganymede/data/cache/CalculationCache.kt:19-22 | a new key in a full cache evicts exactly the least recently accessed key and becomes the most recent |
| CalculationCache.RePutKeepsKeys | app/src/main/kotlin/com/joviansapps/ganymede/data/cache/CalculationCache.kt:18-22 | putting a present key evicts nothing and makes it the most recent |
| CalculationCache.DeadlockExample | app/src/main/kotlin/com/joviansapps/ganymede/data/cache/CalculationCache.kt:26-32 | a miss in getOrPut blocks, and every later call blocks too |
| CalculationCache.CachedExample | app/src/main/kotlin/com/joviansapps/ganymede/data/cache/CalculationCache.kt:26-32 | with the intended getOrPut, a second lookup of the same key is a hit and computes nothing |
| ComponentList.Initial | app/src/main/kotlin/com/joviansapps/ganymede/ui/screens/utilities/electronics/ParallelSeriesResistorCalculatorScreen.kt:53-61 | a fresh list has two empty rows in the default unit, with distinct identifiers |
| ComponentList.SetValue | app/src/main/kotlin/com/joviansapps/ganymede/ui/screens/utilities/electronics/ParallelSeriesResistorCalculatorScreen.kt:101-104 | the rows with the identifier get the new text and nothing else changes |
| ComponentList.SetUnit | app/src/main/kotlin/com/joviansapps/ganymede/ui/screens/utilities/electronics/ParallelSeriesResistorCalculatorScreen.kt:105-108 | the rows with the identifier get the new unit and nothing else changes |
| ComponentList.WithoutId | app/src/main/kotlin/com/joviansapps/ganymede/ui/screens/utilities/electronics/ParallelSeriesResistorCalculatorScreen.kt:98 | the kept rows are exactly those without the identifier |
| ComponentList.WithoutIdSize | app/src/main/kotlin/com/joviansapps/ganymede/ui/screens/utilities/electronics/ParallelSeriesResistorCalculatorScreen.kt:97-98 | with distinct identifiers, removal drops at most one row |
| ComponentList.ApplyKeepsWellFormed | app/src/main/kotlin/com/joviansapps/ganymede/ui/screens/utilities/electronics/ParallelSeriesResistorCalculatorScreen.kt:90-112 | every event keeps identifiers distinct, fresh ids above the used ones and at least two rows |
| ComponentList.EditsTouchOnlyTarget | app/src/main/kotlin/com/joviansapps/ganymede/ui/screens/utilities/electronics/ParallelSeriesResistorCalculatorScreen.kt:101-108 | editing a value or a unit changes only that field of the row with that identifier |
| ComponentList.AddAppends | app/src/main/kotlin/com/joviansapps/ganymede/ui/screens/utilities/electronics/ParallelSeriesResistorCalculatorScreen.kt:93-95 | adding appends exactly one empty row in the default unit |
| ComponentList.ValidValues | app/src/main/kotlin/com/joviansapps/ganymede/ui/screens/utilities/electronics/ParallelSeriesResistorCalculatorScreen.kt:119-124 | the accepted values are at most as many as the rows |
| ComponentList.NoValidValues | app/src/main/kotlin/com/joviansapps/ganymede/ui/screens/utilities/electronics/ParallelSeriesResistorCalculatorScreen.kt:126-131 | no value is accepted exactly when no row parses to a positive number |
| ComponentList.ValidValuesExactly | app/src/main/kotlin/com/joviansapps/ganymede/ui/screens/utilities/electronics/ParallelSeriesResistorCalculatorScreen.kt:119-124 | every accepted value comes from a row, scaled by its unit, and every accepted row gives one |
| ComponentList.SumAtLeastEach | app/src/main/kotlin/com/joviansapps/ganymede/ui/screens/utilities/electronics/ParallelSeriesResistorCalculatorScreen.kt:141 | the sum of positive values is at least each of them |
| ComponentList.ReciprocalAtMostEach | app/src/main/kotlin/com/joviansapps/ganymede/ui/screens/utilities/electronics/ParallelSeriesResistorCalculatorScreen.kt:150 | the reciprocal of the summed reciprocals is positive and at most each value |
| ComponentList.TwoValues | app/src/main/kotlin/com/joviansapps/ganymede/ui/screens/utilities/electronics/ParallelSeriesResistorCalculatorScreen.kt:141-150 | for two values the sum is a + b and the reciprocal combination is a·b / (a + b) |
| ParallelSeriesResistor.TotalResistance | app/src/main/kotlin/com/joviansapps/ganymede/ui/screens/utilities/electronics/ParallelSeriesResistorCalculatorScreen.kt:117-152 | no total exactly when no row is accepted; in series the sum, in parallel the reciprocal of the summed reciprocals |
| ParallelSeriesResistor.TotalBounds | app/src/main/kotlin/com/joviansapps/ganymede/ui/screens/utilities/electronics/ParallelSeriesResistorCalculatorScreen.kt:139-152 | in series the total is at least each resistance; in parallel at most each |
| ParallelSeriesResistor.EmptyRowNotCounted | app/src/main/kotlin/com/joviansapps/ganymede/ui/screens/utilities/electronics/ParallelSeriesResistorCalculatorScreen.kt:121 | example of `ComponentList.ValidValuesExactly`: an empty row is never counted |
| ParallelSeriesResistor.ResistorCalculatorViewModel.constructor | app/src/main/kotlin/com/joviansapps/ganymede/ui/screens/utilities/electronics/ParallelSeriesResistorCalculatorScreen.kt:60-84 | two empty kΩ rows and no total |
| ParallelSeriesResistor.ResistorCalculatorViewModel.OnEvent | app/src/main/kotlin/com/joviansapps/ganymede/ui/screens/utilities/electronics/ParallelSeriesResistorCalculatorScreen.kt:90-115 | the event is applied to the rows, the list invariant holds, and the total is recomputed |
| ParallelSeriesResistor.ResistorCalculatorViewModel.Calculate | app/src/main/kotlin/com/joviansapps/ganymede/ui/screens/utilities/electronics/ParallelSeriesResistorCalculatorScreen.kt:117-133 | the rows are unchanged and the total is the one they give |
| ParallelSeriesResistor.ResetRestores | app/src/main/kotlin/com/joviansapps/ganymede/ui/screens/utilities/electronics/ParallelSeriesResistorCalculatorScreen.kt:109-111 | reset brings back two empty kΩ rows, so there is no total |
| ParallelSeriesCapacitor.TotalCapacitance | app/src/main/kotlin/com/joviansapps/ganymede/ui/screens/utilities/electronics/ParallelSeriesCapacitorCalculatorScreen.kt:100-137 | no total exactly when no row is accepted; in series the reciprocal of the summed reciprocals, in parallel the sum |
| ParallelSeriesCapacitor.TotalBounds | app/src/main/kotlin/com/joviansapps/ganymede/ui/screens/utilities/electronics/ParallelSeriesCapacitorCalculatorScreen.kt:123-137 | in series the total is at most each capacitance; in parallel at least each |
| ParallelSeriesCapacitor.EmptyRowNotCounted | app/src/main/kotlin/com/joviansapps/ganymede/ui/screens/utilities/electronics/ParallelSeriesCapacitorCalculatorScreen.kt:104 | example of `ComponentList.ValidValuesExactly`: an empty row is never counted |
| ParallelSeriesCapacitor.CapacitorCalculatorViewModel.constructor | app/src/main/kotlin/com/joviansapps/ganymede/ui/screens/utilities/electronics/ParallelSeriesCapacitorCalculatorScreen.kt:44-69 | two empty µF rows and no total |
| ParallelSeriesCapacitor.CapacitorCalculatorViewModel.OnEvent | app/src/main/kotlin/com/joviansapps/ganymede/ui/screens/utilities/electronics/ParallelSeriesCapacitorCalculatorScreen.kt:74-98 | the event is applied to the rows, the list invariant holds, and the total is recomputed |
| ParallelSeriesCapacitor.CapacitorCalculatorViewModel.Calculate | app/src/main/kotlin/com/joviansapps/ganymede/ui/screens/utilities/electronics/ParallelSeriesCapacitorCalculatorScreen.kt:100-116 | the rows are unchanged and the total is the one they give |
| ParallelSeriesCapacitor.ResetRestores | app/src/main/kotlin/com/joviansapps/ganymede/ui/screens/utilities/electronics/ParallelSeriesCapacitorCalculatorScreen.kt:93-95 | reset brings back two empty µF rows, so there is no total |
| ParallelSeries.Updated | app/src/main/kotlin/com/joviansapps/ganymede/ui/screens/utilities/electronics/ParallelSeriesCalculator.kt:33-41 | an index inside the list gets the new text, and every other row is kept |
| ParallelSeries.Removed | app/src/main/kotlin/com/joviansapps/ganymede/ui/screens/utilities/electronics/ParallelSeriesCalculator.kt:50-57 | with more than two rows and an index inside, exactly that row is removed; otherwise nothing changes |
| ParallelSeries.ParallelSeriesViewModel.constructor | app/src/main/kotlin/com/joviansapps/ganymede/ui/screens/utilities/electronics/ParallelSeriesCalculator.kt:24 | two empty rows |
| ParallelSeries.ParallelSeriesViewModel.Calculate | app/src/main/kotlin/com/joviansapps/ganymede/ui/screens/utilities/electronics/ParallelSeriesCalculator.kt:59 | the rows are unchanged; one more calculation is counted |
| ParallelSeries.ParallelSeriesViewModel.UpdateValue | app/src/main/kotlin/com/joviansapps/ganymede/ui/screens/utilities/electronics/ParallelSeriesCalculator.kt:33-41 | the list becomes Updated of the old one; the calculation runs only for an index inside the list |
| ParallelSeries.ParallelSeriesViewModel.AddValue | app/src/main/kotlin/com/joviansapps/ganymede/ui/screens/utilities/electronics/ParallelSeriesCalculator.kt:43-48 | an empty row is appended and the calculation runs |
| ParallelSeries.ParallelSeriesViewModel.RemoveValue | app/src/main/kotlin/com/joviansapps/ganymede/ui/screens/utilities/electronics/ParallelSeriesCalculator.kt:50-57 | the list becomes Removed of the old one, never below two rows; the calculation runs only when a row was removed |
| ParallelSeries.AddThenRemove | app/src/main/kotlin/com/joviansapps/ganymede/ui/screens/utilities/electronics/ParallelSeriesCalculator.kt:43-57 | removing the row just added gives back the list before |
| Results.Result.GetOrNull | app/src/main/kotlin/com/joviansapps/ganymede/core/common/Result.kt:42-45 | there is data exactly for a success, and it is the success's data |
| Results.Result.ExceptionOrNull | app/src/main/kotlin/com/joviansapps/ganymede/core/common/Result.kt:50-53 | there is an exception exactly for a failure, and it is the failure's exception |
| Results.ExactlyOneState | app/src/main/kotlin/com/joviansapps/ganymede/core/common/Result.kt:8-37 | exactly one of success, error and loading holds; loading is the state where neither accessor gives anything |
| Results.ResultOf | app/src/main/kotlin/com/joviansapps/ganymede/core/common/Result.kt:87-91 | a returned value is a success holding exactly that value, and a thrown exception a failure carrying it; never loading |
| Results.Map | app/src/main/kotlin/com/joviansapps/ganymede/core/common/Result.kt:96-100 | a success runs the transform under resultOf; a failure passes through unchanged, loading stays loading |
| Results.Combine | app/src/main/kotlin/com/joviansapps/ganymede/core/common/Result.kt:105-114 | two successes run the transform; otherwise the first failure, else the second; loading exactly when neither failed and one is loading |
| Results.MapIdentity | app/src/main/kotlin/com/joviansapps/ganymede/core/common/Result.kt:96-100 | mapping with a transform that returns its argument gives back the same result |
| Results.MapCompose | app/src/main/kotlin/com/joviansapps/ganymede/core/common/Result.kt:96-100 | mapping twice is mapping once with the composed transform, a throw in the first skipping the second |
| Results.CombineWithSuccess | app/src/main/kotlin/com/joviansapps/ganymede/core/common/Result.kt:105-114 | combining with a success is mapping with the partly applied transform |
| Results.Accessors | app/src/main/kotlin/com/joviansapps/ganymede/core/common/Result.kt:42-82 | asSuccess and asError are read back by getOrNull and exceptionOrNull, and the other accessor gives nothing |
| Search.OccursAtIffLower | app/src/main/kotlin/com/joviansapps/ganymede/viewmodel/SearchViewModel.kt:34-35 | matching ignoring case is matching the lower-cased texts |
| Search.ContainsIffLower | app/src/main/kotlin/com/joviansapps/ganymede/viewmodel/SearchViewModel.kt:34-35 | containment ignoring case is containment of the lower-cased query in the lower-cased text |
| Search.Filter | app/src/main/kotlin/com/joviansapps/ganymede/viewmodel/SearchViewModel.kt:33-36 | the filter keeps only screens whose title or a keyword contains the query |
| Search.FilterComplete | app/src/main/kotlin/com/joviansapps/ganymede/viewmodel/SearchViewModel.kt:33-36 | every matching screen is kept |
| Search.FilterAppend | app/src/main/kotlin/com/joviansapps/ganymede/viewmodel/SearchViewModel.kt:33-36 | filtering distributes over concatenation, so the screens keep their order |
| Search.EmptyQueryMatches | app/src/main/kotlin/com/joviansapps/ganymede/viewmodel/SearchViewModel.kt:30-31 | the empty query is contained in every text, which is why a blank query is handled first |
| Search.Results | app/src/main/kotlin/com/joviansapps/ganymede/viewmodel/SearchViewModel.kt:29-38 | a blank query gives no result; otherwise a screen is shown exactly when its title or a keyword contains the query, ignoring case |
| Search.SearchViewModel.constructor | app/src/main/kotlin/com/joviansapps/ganymede/viewmodel/SearchViewModel.kt:12-21 | empty query, no results, no searchable screens |
| Search.SearchViewModel.SetSearchableItems | app/src/main/kotlin/com/joviansapps/ganymede/viewmodel/SearchViewModel.kt:23-25 | the screens are replaced; query and results are left as they are |
| Search.SearchViewModel.OnQueryChange | app/src/main/kotlin/com/joviansapps/ganymede/viewmodel/SearchViewModel.kt:27-40 | the query is stored verbatim and the results are recomputed from it |
| Search.CalculatorExample | app/src/main/kotlin/com/joviansapps/ganymede/viewmodel/SearchViewModel.kt:33-36 | the calculator screen is found by "CALC" through its title and by "Standard" through a keyword |
| GcdLcm.ParseBigInteger | app/src/main/kotlin/com/joviansapps/ganymede/ui/screens/utilities/math/GCDandLCMCalculatorScreen.kt:42-43 | a parsed positive number is exactly the decimal digits of the text |
| GcdLcm.ParseDigits | app/src/main/kotlin/com/joviansapps/ganymede/ui/screens/utilities/math/GCDandLCMCalculatorScreen.kt:42-43 | a digit string parses to its decimal value |
| GcdLcm.Gcd | app/src/main/kotlin/com/joviansapps/ganymede/ui/screens/utilities/math/GCDandLCMCalculatorScreen.kt:46 | the gcd of positive numbers is positive and divides both |
| GcdLcm.GcdGreatest | app/src/main/kotlin/com/joviansapps/ganymede/ui/screens/utilities/math/GCDandLCMCalculatorScreen.kt:46 | every common divisor divides the gcd, so it is the greatest |
| GcdLcm.LcmProperties | app/src/main/kotlin/com/joviansapps/ganymede/ui/screens/utilities/math/GCDandLCMCalculatorScreen.kt:47 | gcd times lcm is a times b, and the lcm is a positive common multiple of both |
| GcdLcm.LcmIsMultiple | app/src/main/kotlin/com/joviansapps/ganymede/ui/screens/utilities/math/GCDandLCMCalculatorScreen.kt:47 | the lcm is (a / gcd) times b and a times (b / gcd) |
| GcdLcm.Calculated | app/src/main/kotlin/com/joviansapps/ganymede/ui/screens/utilities/math/GCDandLCMCalculatorScreen.kt:40-53 | both results exist exactly when both numbers parse and are positive; then the gcd divides both and the lcm is a common multiple |
| GcdLcm.Examples | app/src/main/kotlin/com/joviansapps/ganymede/ui/screens/utilities/math/GCDandLCMCalculatorScreen.kt:40-53 | 12 and 18 give gcd 6 and lcm 36; "0" and "-4" give no result |
| GcdLcm.GcdLcmViewModel.constructor | app/src/main/kotlin/com/joviansapps/ganymede/ui/screens/utilities/math/GCDandLCMCalculatorScreen.kt:26-31 | both numbers empty and no results |
| GcdLcm.GcdLcmViewModel.OnNumberAChange | app/src/main/kotlin/com/joviansapps/ganymede/ui/screens/utilities/math/GCDandLCMCalculatorScreen.kt:37 | the first number is stored, then both results recomputed |
| GcdLcm.GcdLcmViewModel.OnNumberBChange | app/src/main/kotlin/com/joviansapps/ganymede/ui/screens/utilities/math/GCDandLCMCalculatorScreen.kt:38 | the second number is stored, then both results recomputed |
| GcdLcm.GcdLcmViewModel.Calculate | app/src/main/kotlin/com/joviansapps/ganymede/ui/screens/utilities/math/GCDandLCMCalculatorScreen.kt:40-53 | the results are recomputed from the stored numbers |
| ErrorManagement.CategorizeError | app/src/main/kotlin/com/joviansapps/ganymede/utils/ErrorManager.kt:93-144 | the original error is kept; recoverable exactly in the four recoverable categories; validation and calculation errors keep their own message; any other throwable is UNKNOWN |
| ErrorManagement.AttemptRecovery | app/src/main/kotlin/com/joviansapps/ganymede/utils/ErrorManager.kt:149-186 | NotApplicable exactly when the error is not recoverable; a recoverable network error gets a retry recommendation; the model never fails |
| ErrorManagement.RecoveryOfCategorized | app/src/main/kotlin/com/joviansapps/ganymede/utils/ErrorManager.kt:93-186 | for a categorised throwable, recovery is skipped exactly outside the recoverable categories, and otherwise an action is taken or a retry recommended |
| ErrorManagement.ReportRule | app/src/main/kotlin/com/joviansapps/ganymede/utils/ErrorManager.kt:191-199 | a low or medium error is never reported unless it is a security or system error; in full, reported exactly when critical, or a security or system error, or high and not a validation error |
| ErrorManagement.ReportMonotone | app/src/main/kotlin/com/joviansapps/ganymede/utils/ErrorManager.kt:191-199 | raising the severity never stops an error from being reported |
| ErrorManagement.CategoryName | app/src/main/kotlin/com/joviansapps/ganymede/utils/ErrorTypes.kt:8-16 | a category's name is non-empty and contains no underscore |
| ErrorManagement.ErrorIdAsWrittenIsConstant | app/src/main/kotlin/com/joviansapps/ganymede/utils/ErrorManager.kt:241-243 | the id as written is the same string for every error and every context |
| ErrorManagement.ErrorId | app/src/main/kotlin/com/joviansapps/ganymede/utils/ErrorManager.kt:241-243 | the intended id starts with the category name followed by an underscore |
| ErrorManagement.ErrorIdSeparatesCategories | app/src/main/kotlin/com/joviansapps/ganymede/utils/ErrorManager.kt:241-252 | with the intended id, errors of different categories never have the same id, so one cannot be taken for a duplicate of the other |
| ErrorManagement.Cleaned | app/src/main/kotlin/com/joviansapps/ganymede/utils/ErrorManager.kt:267-278 | exactly the entries at most twice the 5000 ms threshold old survive a cleaning, with their timestamps |
| ErrorManagement.RecordedIsRecent | app/src/main/kotlin/com/joviansapps/ganymede/utils/ErrorManager.kt:248-262 | a recorded id counts as a duplicate during the next 5000 ms, even when the cache was cleaned just after recording |
| ErrorManagement.ErrorManager.constructor | app/src/main/kotlin/com/joviansapps/ganymede/utils/ErrorManager.kt:47 | the cache of recent error ids starts empty |
| ErrorManagement.ErrorManager.IsDuplicateError | app/src/main/kotlin/com/joviansapps/ganymede/utils/ErrorManager.kt:248-262 | a duplicate exactly when the id was seen less than 5000 ms ago; a duplicate leaves the cache unchanged; otherwise the id is recorded at the current time and the cache cleaned once it exceeds 50 entries |
| ErrorManagement.ErrorManager.CleanErrorCache | app/src/main/kotlin/com/joviansapps/ganymede/utils/ErrorManager.kt:267-278 | the cache becomes its cleaned version |
| ErrorManagement.ErrorManager.Handle | app/src/main/kotlin/com/joviansapps/ganymede/utils/ErrorManager.kt:58-82 | Ignored with the duplicate reason exactly for a recent id, with the cache unchanged; otherwise Handled with the category, the report decision and the recovery, and the id recorded |
| ErrorManagement.ErrorManager.HandleErrorAsWritten | app/src/main/kotlin/com/joviansapps/ganymede/utils/ErrorManager.kt:52-88 | handleError keyed by the constant id: ignored exactly when that id is recent, else handled with the categorised error's recovery and report decision |
| ErrorManagement.ErrorManager.HandleError | app/src/main/kotlin/com/joviansapps/ganymede/utils/ErrorManager.kt:52-88 | handleError keyed by the intended id, with the same outcome rules |
| ErrorManagement.SuppressedExample | app/src/main/kotlin/com/joviansapps/ganymede/utils/ErrorManager.kt:241-243 | as written, a database error one second after a network error is ignored as a duplicate |
| ErrorManagement.HandledExample | app/src/main/kotlin/com/joviansapps/ganymede/utils/ErrorManager.kt:241-243 | with the intended id, both errors are handled and the database error is reported |
| CalculatorAction.OperatorsListed | app/src/main/kotlin/com/joviansapps/ganymede/data/CalculatorAction.kt:123-134 | the eight operators, in declaration order, include every operator |
| CalculatorAction.UnaryOperators | app/src/main/kotlin/com/joviansapps/ganymede/data/CalculatorAction.kt:132-137 | unary exactly when not binary, and exactly for NEGATE and PERCENT; a unary operator binds tighter than any binary one |
| CalculatorAction.RightAssociative | app/src/main/kotlin/com/joviansapps/ganymede/data/CalculatorAction.kt:123-130 | POWER is the only right-associative operator and binds tighter than every other binary operator |
| CalculatorAction.WithSymbol | app/src/main/kotlin/com/joviansapps/ganymede/data/CalculatorAction.kt:123-134 | the operators of a list written with a given symbol, exactly |
| CalculatorAction.SymbolsDiffer | app/src/main/kotlin/com/joviansapps/ganymede/data/CalculatorAction.kt:130-134 | two different operators with the same symbol are MODULO and PERCENT, sharing "%" |
| CalculatorAction.SharedSymbol | app/src/main/kotlin/com/joviansapps/ganymede/data/CalculatorAction.kt:123-134 | "%" names exactly MODULO and PERCENT; every other symbol names exactly one operator |
| CalculatorAction.ParenthesisType.Opposite | app/src/main/kotlin/com/joviansapps/ganymede/data/CalculatorAction.kt:143-151 | the opposite parenthesis is the other kind, with the other symbol |
| CalculatorAction.OppositeInvolution | app/src/main/kotlin/com/joviansapps/ganymede/data/CalculatorAction.kt:147-150 | taking the opposite twice gives back the parenthesis |
| LogicGates.GateOrder | app/src/main/kotlin/com/joviansapps/ganymede/ui/screens/ressources/LogicGatesScreen.kt:306-317 | the reference lists seven distinct gates, named AND, OR, NOT, NAND, NOR, XOR, XNOR in that order |
| LogicGates.Negations | app/src/main/kotlin/com/joviansapps/ganymede/ui/screens/ressources/LogicGatesScreen.kt:309-315 | NAND, NOR and XNOR are the negations of AND, OR and XOR on every input |
| LogicGates.UnaryGate | app/src/main/kotlin/com/joviansapps/ganymede/ui/screens/ressources/LogicGatesScreen.kt:50-58 | NOT is the only unary gate and ignores its second input; every other gate depends on it for some first input |
| LogicGates.DistinctTruthTables | app/src/main/kotlin/com/joviansapps/ganymede/ui/screens/ressources/LogicGatesScreen.kt:309-315 | any two different gates differ on some input pair |
| Matrices.Add | app/src/main/kotlin/com/joviansapps/ganymede/ui/screens/utilities/math/MatrixCalculatorScreen.kt:172-178 | an n×n matrix whose every entry is the sum of the entries of the two operands |
| Matrices.Subtract | app/src/main/kotlin/com/joviansapps/ganymede/ui/screens/utilities/math/MatrixCalculatorScreen.kt:180-186 | an n×n matrix whose every entry is the difference of the entries of the two operands |
| Matrices.AddSubtract | app/src/main/kotlin/com/joviansapps/ganymede/ui/screens/utilities/math/MatrixCalculatorScreen.kt:172-186 | subtracting what was added gives back the first operand's block; addition is commutative |
| Matrices.Multiply | app/src/main/kotlin/com/joviansapps/ganymede/ui/screens/utilities/math/MatrixCalculatorScreen.kt:188-194 | an n×n matrix whose entry (i, j) is the sum over k of a[i][k]·b[k][j] |
| Matrices.Identity | app/src/main/kotlin/com/joviansapps/ganymede/ui/screens/utilities/math/MatrixCalculatorScreen.kt:188-194 | ones on the diagonal and zeros elsewhere |
| Matrices.DotIdentityLeft | app/src/main/kotlin/com/joviansapps/ganymede/ui/screens/utilities/math/MatrixCalculatorScreen.kt:191 | a partial row-times-column sum with the identity on the left picks out one entry |
| Matrices.DotIdentityRight | app/src/main/kotlin/com/joviansapps/ganymede/ui/screens/utilities/math/MatrixCalculatorScreen.kt:191 | a partial row-times-column sum with the identity on the right picks out one entry |
| Matrices.MultiplyIdentity | app/src/main/kotlin/com/joviansapps/ganymede/ui/screens/utilities/math/MatrixCalculatorScreen.kt:188-194 | the identity is neutral for the product on either side |
| Matrices.Transpose | app/src/main/kotlin/com/joviansapps/ganymede/ui/screens/utilities/math/MatrixCalculatorScreen.kt:196-206 | rows and columns swapped |
| Matrices.DeterminantIdentity | app/src/main/kotlin/com/joviansapps/ganymede/ui/screens/utilities/math/MatrixCalculatorScreen.kt:196-206 | the identity has determinant 1 at size 2 and 3; any other size gives 0 |
| Matrices.DeterminantTranspose | app/src/main/kotlin/com/joviansapps/ganymede/ui/screens/utilities/math/MatrixCalculatorScreen.kt:196-206 | transposing does not change the determinant |
| Matrices.DeterminantRowSwap | app/src/main/kotlin/com/joviansapps/ganymede/ui/screens/utilities/math/MatrixCalculatorScreen.kt:196-206 | swapping the first two rows negates the determinant |
| Matrices.CoerceSize | app/src/main/kotlin/com/joviansapps/ganymede/ui/screens/utilities/math/MatrixCalculatorScreen.kt:47 | the size is between 2 and 3: 2 when the text is not an integer, otherwise the integer clamped to 2..3 |
| Matrices.Compute | app/src/main/kotlin/com/joviansapps/ganymede/ui/screens/utilities/math/MatrixCalculatorScreen.kt:100-105 | the determinant operation gives a 1×1 matrix holding the determinant; the others give an n×n matrix |
| Matrices.MatrixCalculator.constructor | app/src/main/kotlin/com/joviansapps/ganymede/ui/screens/utilities/math/MatrixCalculatorScreen.kt:18-23 | size 2, both grids zero, no result, addition selected |
| Matrices.MatrixCalculator.OnSizeChange | app/src/main/kotlin/com/joviansapps/ganymede/ui/screens/utilities/math/MatrixCalculatorScreen.kt:46-53 | the size is the coerced text, both grids are replaced by fresh zero grids, and the result is cleared |
| Matrices.MatrixCalculator.OnCellChange | app/src/main/kotlin/com/joviansapps/ganymede/ui/screens/utilities/math/MatrixCalculatorScreen.kt:142-143 | the edited cell of A or B holds the text read as a number, or 0 when it is not one; every other cell is unchanged |
| Matrices.MatrixCalculator.SelectOperation | app/src/main/kotlin/com/joviansapps/ganymede/ui/screens/utilities/math/MatrixCalculatorScreen.kt:62-68 | only the selected operation changes |
| Matrices.MatrixCalculator.Calculate | app/src/main/kotlin/com/joviansapps/ganymede/ui/screens/utilities/math/MatrixCalculatorScreen.kt:98-107 | the result is the selected operation applied to the current grids at the current size |

## Left out

- Floating point: every Kotlin `Double` is a Dafny `real`, so rounding, overflow to infinity and signed zeros are not modelled. The one exception is the numeral-base unit, where whole numbers become doubles (`Long.toDouble()`, and `toDoubleOrNull` on a numeral): there the rounding to the nearest double is modelled. Text that `toDoubleOrNull` reads is parsed into a finite value, NaN or an infinity; hexadecimal floating literals are not accepted.
- Character classes, upper- and lower-casing and `isDigit`/`isLetter` are restricted to ASCII. There is no Unicode case folding. The blank class of `isBlank()`, `trim()` and `str.strip()` is its ASCII part: tab to carriage return, the separators U+001C to U+001F, and the space. Non-ASCII blanks such as U+0085, U+00A0 and U+2000 to U+200A are not counted as blank.
- The Compose screens, navigation, drawable and string resources, and every label text: only the state the screens hold and the logic they call are modelled. The gate card's displayed output is its gate's `Calculate` on the two switches; the card itself is not modelled.
- Coroutines and `StateFlow`: `viewModelScope.launch` bodies run at once, in order. Clocks are method parameters: `now` and `later` in the error manager, and today's date in the date calculator.
- CalculatorViewModel's expression evaluation goes through exp4j, `gamma` and `formatNumber`. The outcome of an evaluation is an input of `Calculator.Evaluate`, success with its text or failure; the arithmetic itself is not modelled.
- CalculatorViewModel's other actions are not modelled: the memory keys (`memoryAdd`, `memorySubtract`, `memoryRecall`, `memoryStore`, `memoryClear`), `toggleAngleMode`, `setFormatMode`, and the `onAction` dispatch. The history's DataStore persistence (`loadHistory`, `saveHistory`) is left out too. `clearAll` is unreachable from the actions, which call `clear`, so it is not modelled.
- The graph plotter's `evalRPN` and drawing are floating-point evaluation and are not modelled. A ',' becomes a separate "." token that the conversion to reverse Polish notation then drops; it is modelled as written.
- The error manager's logging, crash reporting and error-event emission are not modelled. `ErrorEvent` is reduced to its category and its reported flag. Java exception classes are folded into one `Throwable` datatype, and their messages are plain strings. The `Failed` outcomes that only a thrown exception could produce cannot occur in the model.
- The error manager's `ConcurrentHashMap` is a `map`: concurrent handlers are not modelled.
- In the resistor and capacitor list view models, ids issued by `UUID.randomUUID()` are modelled as distinct numbers from a counter. `ResistanceUnit` and `CapacitanceUnit` are not part of this model; a unit is its multiplier.
- In `ParallelSeriesViewModel`, the abstract `calculate` is a counter of recalculations; its index parameters are natural numbers, since the callers never pass a negative one.
- `Result.onSuccess`, `onError` and `onLoading` run callbacks for their side effects and are not modelled. The `GanymedeError` hierarchy is reduced to a `Throwable` value. `MathCache` and `PerformanceUtils` are not part of this model.
- Matrices.MatrixCalculator.OnCellChange: the text "NaN" or "Infinity", which Kotlin reads as a non-finite double, is stored as 0, because cells are reals. The grids stay 3×3 arrays whatever the size, as in the source.
- `ConverterViewModel`, the physics and electronics calculators, the colour-code screens and the Android, DataStore, Room, Hilt and Firebase plumbing are not part of this model.
- The translation tool's file I/O is modelled by its inputs: whether each file exists, the parsed XML children and the CSV records. The XML and CSV parsing libraries and the output file format are not modelled.
- ErrorManagement.ShouldReportError: has no contract of its own; `ErrorManagement.ReportRule` states its rule.
- DateCalculator.InitialState: tomorrow's date is computed on the unbounded calendar, so a clock reading 31 December 999,999,999 is not modelled. The other date operations check the supported years.
- DateCalculator.Recalculate: a `Throws` outcome stands for the exception that escapes `viewModelScope.launch` and ends the app. The view model then takes no more events, and its state after the crash is not modelled.

## Findings

| source | as written | input that shows it | evidently intended | confidence | as-written member | corrected member |
|---|---|---|---|---|---|---|
| app/tools/generate_translations.py:88-101 | `main` checks both inputs and loads them, but never calls `write_strings` | a base file and a CSV with a header `key,fr` and one row | one merged document per locale is written | high, not executed | Translations.RunToolAsWrittenWritesNothing | Translations.RunTool |
| app/src/main/kotlin/com/joviansapps/ganymede/utils/ErrorManager.kt:241-243 | the template escapes its first `$`, so every error gets the same constant id | a network error, then a database error one second later | the id joins the category, the error's class name and the screen, so different errors are not duplicates | high, not executed | ErrorManagement.SuppressedExample | ErrorManagement.HandledExample |
| app/src/main/kotlin/com/joviansapps/ganymede/data/cache/CalculationCache.kt:26-32 | `getOrPut` calls `put` while it holds the same non-reentrant mutex | `getOrPut` on an empty cache | on a miss, the value is computed, stored and returned | high, not executed | CalculationCache.DeadlockExample | CalculationCache.CachedExample |
