# A model of the File4Base server in Dafny

This project models the parts of the File4Base server (`server/internal`) in which most can go
wrong, and proves what they are for:

- the **calculation engine**: the lexer, the parser with its nine levels, the lazy evaluator, the
  dependency order with its ring report, and the code that writes the answers of formulas into
  records (`Lexer`, `Parser`, `Printer`, `RoundTrip`, `Evaluator`, `EvaluatorLaws`, `Order`,
  `Calculations`, `Records`, `Tables`), against a spelling of the tokens and a grammar (`Spelling`,
  `Grammar`), a meaning of formulas as a relation on their trees (`Readings`, `Operations`,
  `Functions`, `Answers`) with the laws between formulas (`Algebra`), and what a table's formulas
  and its inserts and updates come to, column by column and field by field (`TableFormulas`, `Writes`);
- the **record layer**: the cascading delete over a record graph that may contain rings
  (`Relationships`, `Cascade`, `CascadeDepth`, `CascadeMethods`), and the translation of find
  requests into one SQL condition (`Sql`, `Find` and the modules that begin with `Find`);
- **sessions and account stamps** as a protocol of atomic steps in any order (`Sessions`,
  `Accounts`, `Protocol`, `ProtocolExceptions`), and how long a session lives over its runs
  (`Lifetimes`);
- the **login throttle** (`Throttle`);
- **imports and summaries** (`Numbers`, `Import`, `ImportMeaning`, `ImportLaws`, `ImportExceptions`,
  `ImportMethods`, `Summary`, `SummaryMeaning`), and exports and reports over what a find finds
  (`FoundSets`).

`Common`, `Formula`, `Numerals` and `Sorting` hold what they share.

Code that computes is modelled by functions. Code that works step by step is modelled by methods
with the loops of the source, on classes where the source has objects it updates; each is proved
equal to a function, and the laws are proved about that function. What such a function means is
said a second time as a relation that calls none of the functions the program is modelled by, and
the two are proved to agree: the lemmas whose names end in `Means`, and those beside them.

What the server takes from its surroundings enters as parameters, so that every statement holds
for all of them: the library of its language (`Common.Host`: character classes, case, number and
time layouts, rounding, the clock), and the database engine (comparison, casts, lower case, LIKE,
the order of rows, which of several matching rows LIMIT 1 picks). Assumptions about an engine are
named predicates: `FairEngine` (every matching row once), `TellsEmpty` (text with something in it
differs from the empty text), `RunsOn` (a query returns its found set, each record once). Numbers are exact reals and moments are integers. A stored value
reads back as it was written, except that an id is kept as text.

The condition a find builds is a datatype with an evaluator for SQL's three truth values, not a
string. PostgreSQL takes placeholders by number, MariaDB by position; both readings are modelled.

Where the naive reading of the source is not what it does, the project says exactly when it is,
and shows a case where it is not:

- a record with nothing in the field compared is left out by an omitting request that does not
  match it (`OmitIsSubtraction`, `OmitLosesUnknown`), against the comment at
  `server/internal/data/service.go:644-647`;
- on an engine with positional placeholders an omitting request before an including one exchanges
  their values (`PlaceholdersAligned`, `PositionMisleads`);
- the related read treats a match value of white space as empty, the related find does not
  (`RelatedFindAgrees`, `BlankKeyDiffers`);
- a cascade that stands on a whole page of records may leave records behind
  (`CascadeExact`, `DeepCascadeMisses`);
- a matching import update can leave formulas wrong that read fields without a column, and any
  import those in added records that read the id, which an insert sets before the formulas are
  computed and an import after (`ImportKeepsFormulas`, `UncoveredBreaks`, `AddHoldsIff`,
  `IdIsReadTooEarly`, `UpdateLosesBadge`);
- an account that comes back to an earlier stamp revives sessions opened late
  (`LateNeverAccepted`, `ComebackAccepts`);
- the two ends of a text make it up again only for a whole number of characters (`EndsJoin`), and
  values compared in different ways may go round in a ring (`OrderIsOne`, `OrderGoesRound`).

In three more places the code is followed and not its comments: the throttle forgets failures a
window after the first of them, not after a gap without failures (`auth/throttle.go:33`,
`SteadyNeverLocks`), and it keeps the record of a lock that has run out, so that the next failure
locks again (`auth/throttle.go:16`, `LockStays`); the recalculation pages in descending order of id, because the ascending
order has to be asked for (`data/calculations.go:175-179`).

## Model

| member | source | states |
|---|---|---|
| `Lexer.LexString` | server/internal/calc/lex.go:143-160 | The loop over a quoted text takes its quotes off, halves doubled quotes, and finds no text where the closing quote is missing, as the recursive reading of such a text does. |
| `Lexer.ScanAt` | server/internal/calc/lex.go:67-121 | The switch at one position recognises the same lexeme, of the same width, as the specification does on the rest of the text. |
| `Lexer.Lex` | server/internal/calc/lex.go:63-126 | The scanning loop returns exactly the tokens of the specification, each with its position and one end token last, or its first error. |
| `Lexer.LexFrom` | server/internal/calc/lex.go:63-126 | A token list that comes out ends in an end token and has no other. |
| `Parser.ParseLevel` | server/internal/calc/parse.go:122-252 | At every level of the grammar parsing terminates, moves forward, stays inside the tokens, and only builds trees of known functions with legal numbers of arguments. |
| `Parser.ParsePrimary` | server/internal/calc/parse.go:254-293 | A primary expression uses up at least one token, never looks past the end token, and is well formed. |
| `Parser.ParseCall` | server/internal/calc/parse.go:298-328 | A call that parses names a known function and has between its fewest and its most arguments. |
| `Parser.TokenReader.ParseOr` | server/internal/calc/parse.go:124-138 | The loop that rebuilds its left side reads what the specification of the OR level reads and leaves the cursor where it ends; an error is the same error. |
| `Parser.TokenReader.ParseAnd` | server/internal/calc/parse.go:140-154 | The same for the AND level. |
| `Parser.TokenReader.ParseNot` | server/internal/calc/parse.go:156-170 | The same for the NOT level. |
| `Parser.TokenReader.ParseComparison` | server/internal/calc/parse.go:172-189 | The same for comparisons, which do not chain. |
| `Parser.TokenReader.ParseConcat` | server/internal/calc/parse.go:191-205 | The same for the level of `&`. |
| `Parser.TokenReader.ParseAdditive` | server/internal/calc/parse.go:207-221 | The same for addition and subtraction. |
| `Parser.TokenReader.ParseMultiplicative` | server/internal/calc/parse.go:223-237 | The same for multiplication and division. |
| `Parser.TokenReader.ParseUnary` | server/internal/calc/parse.go:239-252 | The same for signs; a plus leaves no node. |
| `Parser.TokenReader.ParsePrimaryToken` | server/internal/calc/parse.go:254-293 | The same for literals, names, calls and parentheses. |
| `Parser.TokenReader.ParseCallAfter` | server/internal/calc/parse.go:298-328 | The same for a call, its arity check included. |
| `Parser.ParseFormula` | server/internal/calc/parse.go:92-109 | Parse as a whole is the specification: blank text, what lexing rejects, and anything after the expression are errors. |
| `Parser.FieldCollector.Collect` | server/internal/calc/parse.go:74-88 | Walking a tree adds exactly the names it reads to the set. |
| `Formula.FieldsStandIn` | server/internal/calc/parse.go:74-88 | The names a formula reads are exactly those of the fields that stand in its tree, whatever is written in its texts. |
| `Spelling.ScanMeans` | server/internal/calc/lex.go:67-141 | The switch finds a token exactly if the text begins with it: every sign, mark, number, word and quoted text has one spelling, given without the lexer, and takes as much as can belong to it. |
| `Spelling.LexMeans` | server/internal/calc/lex.go:63-160 | Lexing succeeds with a list of tokens if and only if they are the tokens of the text: white space and tokens in turn, each where it stands, and the end behind the last; a text has one such list at most. |
| `Grammar.ReadIsDerived` | server/internal/calc/parse.go:122-328 | What the parser of any level reads is derived at that level by the productions of the grammar, which name every operator, word and function themselves. |
| `Grammar.DerivedLoops` | server/internal/calc/parse.go:124-237 | A looping level comes past every expression derived at its level with the tree of the derivation in hand. |
| `Grammar.DerivedIsRead` | server/internal/calc/parse.go:122-328 | Every expression the grammar derives at a level, in front of a token that ends it, is read by the parser of that level, with exactly its tree, positions included. |
| `Grammar.TableMeans` | server/internal/calc/functions.go:83-236 | A word names a function with so many arguments exactly if its capitals are in the table of functions and the number is one the table allows. |
| `Grammar.NumeralMeans` | server/internal/calc/parse.go:258-264 | A numeral denotes the number its digits say, read from the left and shifted by as many places as follow the point. |
| `Grammar.ParseMeans` | server/internal/calc/parse.go:92-328 | Parse takes a text if and only if it is a formula of the grammar, and returns the one tree it has: a plus leaves nothing, a minus negates, and no other text is taken. |
| `Printer.LeftForm` | server/internal/calc/parse.go:124-237 | Where a tree is printed, a looping level enters its loop with that tree built up to positions: left operands are read back into the left-nested shape. |
| `Printer.PrintedParses` | server/internal/calc/parse.go:122-328 | Parsing at any level the lexemes a tree is printed with there, with the fewest parentheses its level needs, gives the tree back up to positions and stops right after it. |
| `Printer.ArgsParse` | server/internal/calc/parse.go:298-328 | An argument list printed with either separator between any two arguments parses back one by one. |
| `RoundTrip.QuotedDoubled` | server/internal/calc/lex.go:143-160 | Text quoted with its quotes doubled is read back as itself. |
| `RoundTrip.LexRendered` | server/internal/calc/lex.go:63-160 | Lexemes written out with enough space between them, and any more, are lexed back one by one. |
| `RoundTrip.ParsePrinted` | server/internal/calc/parse.go:92-328 | However the lexemes of a printed tree are spaced, and whichever separator stands between any two arguments, lexing and parsing the text gives the tree back up to positions. |
| `RoundTrip.FormulaRoundTrip` | server/internal/calc/parse.go:92-328 | Every tree of legal arities, names that are not reserved and decimal numerals has a formula that parses to it. |
| `RoundTrip.PrintingIsInjective` | server/internal/calc/parse.go:122-328 | Two trees printed alike, not counting which separators are used, are alike up to positions: precedence and minimal parentheses leave nothing ambiguous. |
| `Numerals.DecimalRoundTrip` | server/internal/calc/parse.go:258-264 | A number written as decimal digits is read back as the same number. |
| `EvaluatorLaws.EvalFrame` | server/internal/calc/eval.go:85-218 | Two records that agree on the fields a formula mentions give the same value or the same error, through lazy AND and OR, IF and CASE. |
| `EvaluatorLaws.EvaluateFrame` | server/internal/calc/eval.go:43-83 | The same for the answer ready to be stored, of any result type. |
| `EvaluatorLaws.DesugarMeans` | server/internal/calc/functions.go:39-68 | Writing every CASE as IFs inside each other leaves no CASE and changes neither the value nor the error, on every record. |
| `EvaluatorLaws.LazyRefinesStrict` | server/internal/calc/eval.go:130-160 | Where working out both sides of AND and OR and every branch of IF and CASE succeeds, lazy evaluation gives the same value. |
| `EvaluatorLaws.CaseLoop` | server/internal/calc/functions.go:54-68 | The loop over tests and answers is the recursive reading of CASE. |
| `EvaluatorLaws.EvalCall` | server/internal/calc/functions.go:39-79 | A call evaluates only the branch it takes, or its arguments in order up to the first error. |
| `EvaluatorLaws.FoldNumbers` | server/internal/calc/functions.go:257-286 | The loop folds the arguments as numbers and stops at the first that is none. |
| `EvaluatorLaws.FoldsAre` | server/internal/calc/functions.go:257-286 | SUM, MIN and MAX as folds are the total, the least and the greatest of the numbers. |
| `EvaluatorLaws.LeastIsLeast` | server/internal/calc/functions.go:271-286 | MIN is one of the numbers and not above any, MAX one of them and not below any. |
| `EvaluatorLaws.ListTexts` | server/internal/calc/functions.go:105-116 | The loop of LIST collects the texts of the arguments that are not empty, in their order. |
| `EvaluatorLaws.ConcatTexts` | server/internal/calc/functions.go:118-124 | The loop of CONCAT joins the texts of all arguments, in their order. |
| `Readings.NumberMeans` | server/internal/calc/value.go:92-114 | What a value counts as in arithmetic, or why it counts as nothing, is what a relation says that does not mention the conversion: nothing is 0, truth 1, text the number between its white space. |
| `Readings.TextMeans` | server/internal/calc/value.go:116-138 | A value is written as one text: digits without a leading zero for whole numbers short of 10^15, a date or a timestamp for a moment, the words for truth. |
| `Readings.StoreMeans` | server/internal/calc/eval.go:55-83 | What is stored of an answer, for each result type: nothing of nothing, the number or truth it counts as, its text, its date without and its timestamp with the time; or the error of what it does not count as. |
| `Operations.OrderOfTexts` | server/internal/calc/eval.go:223-251 | Texts compare by the first character that tells them apart, or by ending there. |
| `Operations.CompareMeans` | server/internal/calc/eval.go:223-251 | A comparison says before or alike exactly as two values are: moments by time, values that count as numbers by number, all others by their texts without regard to case, nothing equal to nothing alone. |
| `Operations.OperatorMeans` | server/internal/calc/eval.go:162-218 | For every operator and any two values the answer or error is the one a relation says that names none of the evaluator's functions, and no other. |
| `Functions.ReplaceMeans` | server/internal/calc/functions.go:101-103 | SUBSTITUTE cuts the text at every place where the searched one stands, from the left and without overlaps, and puts the other there; every text falls into such pieces in one way. |
| `Functions.NumbersAre` | server/internal/calc/functions.go:257-286 | Arguments are the numbers they count as, or the error of the first that counts as none. |
| `Functions.FunctionMeans` | server/internal/calc/functions.go:83-310 | For each of the functions and any arguments the answer or error is the one said of it without the evaluator's functions, and no other: characters taken from the ends and the middle, sums, extremes, averages, first filled argument, parts of dates. |
| `Answers.CaseMeant` | server/internal/calc/functions.go:54-68 | A CASE comes to the result behind its first test that holds, the error of a test before that, its default, or nothing. |
| `Answers.EvalMeans` | server/internal/calc/eval.go:85-218 | A formula evaluates over a record to what it means, value or error, and to nothing else; its meaning is a relation on the tree that does not use the evaluator. |
| `Answers.EvaluateMeans` | server/internal/calc/eval.go:43-83 | The stored answer of a formula over a record is what is kept of that meaning for the result type, and nothing else. |
| `Algebra.SumsUndone` | server/internal/calc/eval.go:178-190 | Of any formulas that count as numbers, (x - y) + y and (x + y) - y are x, and x - y is the opposite of y - x. |
| `Algebra.QuotientsUndone` | server/internal/calc/eval.go:191-200 | (x / y) * y and (x * y) / y are x unless y is 0, and dividing fails with that error if and only if it is. |
| `Algebra.OneOfThree` | server/internal/calc/eval.go:202-251 | Of any two values exactly one of <, = and > is true, <=, >= and <> are their complements, and exchanging the sides exchanges < and >. |
| `Algebra.OrderIsOne` | server/internal/calc/eval.go:223-251 | Values that are all compared in one way, as moments, as numbers or as texts, are in one order, with values alike in one place. |
| `Algebra.OrderGoesRound` | server/internal/calc/eval.go:223-251 | Values compared in different ways need not be: 2 is before 10, 10 before "1a" and "1a" before 2. |
| `Algebra.DeMorgan` | server/internal/calc/eval.go:130-160 | NOT of an AND is the OR of the NOTs and the other way round, for any formulas, errors and the side not evaluated included. |
| `Algebra.LengthAdds` | server/internal/calc/functions.go:97-99 | The length of two texts joined is the sum of their lengths. |
| `Algebra.EndsJoin` | server/internal/calc/functions.go:126-147 | The left n characters of a text joined with the right of its length less n are the text again if and only if n is whole and within the text; a fraction loses a character. |
| `Algebra.MiddleGoesOn` | server/internal/calc/functions.go:126-171 | The left n characters and the middle from character n + 1 on are the text again, for any n that is not negative. |
| `Algebra.SubstituteLeaves` | server/internal/calc/functions.go:101-103 | A text that has the searched one nowhere stays as it is. |
| `Algebra.SubstituteSplits` | server/internal/calc/functions.go:101-103 | At the first place of the searched text the other takes its place, and the substitution goes on behind it. |
| `Algebra.CoalesceIs` | server/internal/calc/functions.go:211-218 | COALESCE is its first argument unless that is empty, and COALESCE of the others if it is. |
| `Algebra.AverageTimesCount` | server/internal/calc/functions.go:190-204 | The average times the number of arguments is the sum, errors included. |
| `Order.VisitKeeps` | server/internal/calc/order.go:57-85 | A visit keeps the invariant of the search and finishes its field, or reports a closed walk that is really there. |
| `Order.DependencyOrderIsAcyclic` | server/internal/calc/order.go:26-93 | A list with every field after those it reads leaves no room for a ring. |
| `Order.OrderCorrect` | server/internal/calc/order.go:26-93 | Order succeeds if and only if the graph of calculation fields is acyclic; on success every calculation field is listed once and after all it reads, on failure the fields reported form a closed walk of the graph. |
| `Order.Sorter.VisitField` | server/internal/calc/order.go:57-85 | The closure over its marks, stack and list does what the functional search does. |
| `Order.OrderFields` | server/internal/calc/order.go:26-93 | The method, its sorting and its maps walked in any order included, returns what the specification returns. |
| `Calculations.ApplyHolds` | server/internal/data/calculations.go:113-122 | Running formulas in dependency order makes every calculation field equal its formula over the final record and touches nothing else. |
| `Calculations.ApplyIgnoresSent` | server/internal/data/calculations.go:100-122 | What was sent for calculation fields influences neither the record nor an error. |
| `Calculations.FixedPoint` | server/internal/data/calculations.go:113-122 | Running the formulas succeeds exactly when the base record has an extension in which every calculation field equals its formula over that very record, and gives that extension, the only one there is. |
| `Calculations.TableCalculationsInOrder` | server/internal/data/calculations.go:46-93 | The parsed formulas of a table come out complete and in dependency order, or in a ring that is there. |
| `Calculations.TableCalculations` | server/internal/data/calculations.go:46-93 | Loading, parsing and ordering the formulas is that specification. |
| `Calculations.ApplyCalculationsTo` | server/internal/data/calculations.go:113-122 | The loop that writes answers into a record in place leaves the record and the error of the specification. |
| `Calculations.RecalculateForUpdate` | server/internal/data/calculations.go:127-157 | The loop over the merged record leaves in the update exactly the answers of the specification, those before an error included. |
| `Calculations.AnswersAreApplied` | server/internal/data/calculations.go:127-157 | The row with those answers laid over it is the merged row with every formula run, error included, and the update gains exactly the calculation fields. |
| `TableFormulas.LoadedAre` | server/internal/data/calculations.go:46-93 | Where column names are distinct, a field is calculated if and only if the column of that name has a formula that parses, and by exactly that formula and result type; a column whose formula does not parse changes nothing for the others. |
| `TableFormulas.RingsRefused` | server/internal/data/calculations.go:75-93 | The formulas of a table are refused if and only if some that parse read each other in a ring, and the fields reported are such a ring. |
| `TableFormulas.RunKeepsFormulas` | server/internal/data/service.go:271-523 | Over every run of inserts, updates and deletions every formula of the table that parses holds in every row. |
| `Records.InsertedHolds` | server/internal/data/service.go:271-356 | A record that is inserted is the one extension of what was sent, constants and id entered, in which every formula holds; they hold in the stored row unless a formula reads an id that was not sent as text. |
| `Records.InsertIgnoresCalculated` | server/internal/data/service.go:271-356 | Inserting records that differ in calculation fields only comes to the same, errors included. |
| `Records.UpdatedHolds` | server/internal/data/service.go:391-472 | An updated row is the one extension of the row overlaid with the update in which every formula holds, under the same id. |
| `Records.UpdateIgnoresCalculated` | server/internal/data/service.go:391-472 | Updates that differ in calculation fields only come to the same row or the same error, if both set something or neither does. |
| `Records.CalculatedUpdateIsNone` | server/internal/data/service.go:391-472 | An update of calculation fields alone leaves a row whose formulas hold as it was. |
| `Records.RunHolds` | server/internal/data/service.go:271-523 | Over every run of inserts, updates and deletions every calculation field of every row equals its formula over that row. |
| `Writes.InsertMeans` | server/internal/data/service.go:271-356 | What an insert comes to, decided field by field: each field holds what was sent, else its constant, the id what was sent or the new one, and calculated fields what their formulas come to; otherwise the first error that applies, in the source's order. |
| `Writes.UpdateMeans` | server/internal/data/service.go:391-472 | What an update comes to, decided field by field: each field it sets holds what it sets, each other what it held, calculated fields what their formulas come to; what is written and checked is just these, and otherwise the first error that applies. |
| `Writes.StepMeans` | server/internal/data/service.go:271-523 | What a write does to the table: an insert adds the row of its record, with every field and the id as text, an update puts the new row in the place of the old, a deletion takes one away, an error changes nothing, and no other row changes. |
| `Tables.Table.InsertRow` | server/internal/data/service.go:271-356 | The method changes the table as the specification says, and nothing of it on an error; the record in hand ends as the one stored, or as far as it got. |
| `Tables.Table.UpdateRow` | server/internal/data/service.go:391-472 | The same for an update, which ends as what was written over the row. |
| `Tables.ListedOnce` | server/internal/data/service.go:526-565 | Pages by id, put together until one is not full, list every record found once and no other, for any size of page. |
| `Tables.IdsInOrder` | server/internal/data/service.go:526-565 | Ids are listed in ascending or descending order by the first character that tells two of them apart. |
| `Tables.Table.RecalculateAll` | server/internal/data/calculations.go:174-209 | The paging loop recomputes each record once, in descending order of id, for any size of table, and stops at the first error with the rest untouched. |
| `Tables.RecalculatedAll` | server/internal/data/calculations.go:164-210 | A recalculation that got to the end wrote and reported every record, and every row is the one extension of its base fields. |
| `Tables.Table.RecalculateTable` | server/internal/data/calculations.go:164-210 | A ring of formulas changes nothing, no formulas write nothing, and otherwise the records reported are recomputed and the others as they were. |
| `Tables.Table.ExportRows` | server/internal/data/import.go:546-571 | A default-sorted export is the whole found set in order of id, without repeats. |
| `Cascade.DeleteRow` | server/internal/data/service.go:488-523 | Deleting terminates on any graph, rings and self-joins included; records only go, unchanged ones stay as they are, and each that goes was marked as seen. |
| `Cascade.CascadeRel` | server/internal/data/related.go:434-479 | Reading a page, deleting it and reading again terminates, and keeps the same. |
| `Relationships.SignMeans` | server/internal/data/related.go:28-71 | A sign is accepted as a comparison if and only if it is one of the ways that comparison is written, with white space around it or not; any other is refused. |
| `Cascade.ReadMeans` | server/internal/data/related.go:271-341 | What a cascade reads, said over relationship, catalog and records: it fails for an unknown sign, follows nothing where a table or match field is gone, and otherwise reads records the parent asks for, each once, a page at most and all that there are when they fill less. |
| `Cascade.ReadKnown` | server/internal/data/related.go:271-341 | Every child on a page is a record of the table on the right that compares with the parent. |
| `Cascade.CascadeRelKeeps` | server/internal/data/related.go:434-479 | One relationship keeps the invariant of the cascade, and where there is room all its parent asks for is gone or on its way out afterwards. |
| `Cascade.PageCovers` | server/internal/data/related.go:434-479 | Where there is room, a page with nothing left to delete is the last page. |
| `Cascade.CascadeSound` | server/internal/data/service.go:478-523 | Whatever its outcome a cascade removes only what is reachable from its root by what deleting a record asks for, and changes nothing else; the root goes unless there is an error, and the only error is the sign of a cascading relationship. |
| `Cascade.UnknownSignFails` | server/internal/data/related.go:434-454 | A cascading relationship from the table of a record whose sign is unknown does fail the deletion of the record. |
| `Cascade.CascadeExact` | server/internal/data/service.go:478-523 | Where no page can consist of records on their way out while others wait behind it, a successful cascade removes exactly the records reachable from its root. One record asks for another if a relationship that cascades leads from table to table, both tables and match fields are there, the match value is neither NULL nor blank and compares with the other as the sign says. |
| `Cascade.ShortPathsAreRoomy` | server/internal/data/related.go:444-476 | That is so when fewer records than a page stand on any one path down from the root. |
| `Cascade.FewChildrenAreRoomy` | server/internal/data/related.go:444-476 | It is so as well, however deep the cascade, when no record has more than a page of children through one relationship. |
| `CascadeDepth.DeepCascadeMisses` | server/internal/data/related.go:444-476 | For every page size there is a chain of that many records whose cascade succeeds and leaves behind a record it reaches: the bound is sharp. |
| `CascadeMethods.Database.DeleteSeen` | server/internal/data/service.go:488-523 | The method on the database and the growing set of seen records does what the specification does. |
| `CascadeMethods.Database.CascadeDelete` | server/internal/data/related.go:434-479 | The loop over the relationships does what the specification does. |
| `CascadeMethods.Database.DeleteThrough` | server/internal/data/related.go:444-476 | The page loop of one relationship does what the specification does. |
| `CascadeMethods.Database.RelatedRows` | server/internal/data/related.go:271-341 | The read a cascade makes: its errors, and the first page of the records that compare with a match value that is not empty. |
| `Find.IndexOf` | server/internal/data/service.go:581-590 | The place found is the first where the text stands, and none is found only where it stands nowhere. |
| `FindTyped.RangeDated` | server/internal/data/service.go:581-590 | A range typed with dots between its ends is read back as that range. |
| `FindTyped.TypedIsRead` | server/internal/data/service.go:568-642 | What is typed for a criterion, operator and value, is read back as that criterion, with today's date for two slashes; text with wildcards as its SQL pattern, plain text as the containment of the text. |
| `FindTyped.ShortNotEqual` | server/internal/data/service.go:624-629 | An exclamation mark alone is read as inequality. |
| `FindTyped.EnteredMeans` | server/internal/data/service.go:766-781 | A criterion without an operator, or with LIKE, whose value is typed for another stands for that other, on its own field and relationship, exactly if the text begins with a sign or holds dots, a wildcard or two slashes. |
| `FindTyped.PlainMeans` | server/internal/data/service.go:766-781 | A criterion with an operator of its own, without a value or with plain text stands for itself. |
| `FindLaws.CriterionMeans` | server/internal/data/service.go:666-733 | For every operator the condition of a criterion, its placeholders taking its values, comes to the verdict said of that very operator: greater, less, at least, at most, between, like, equal or different without regard to case, empty or not; undecided exactly for a field with nothing to compare. |
| `FindLaws.RelatedMeans` | server/internal/data/related.go:554-580 | A criterion on a related field is never undecided: it holds exactly when the match value is not empty and some related row makes the inner criterion true. |
| `FindLaws.RequestMeans` | server/internal/data/service.go:757-806 | The conditions of a request are all true exactly when every criterion that names a field is met, and definitely false exactly when one definitely fails. |
| `FindLaws.FindMeans` | server/internal/data/service.go:648-809 | The WHERE clause with its values selects a record if and only if some including request is met, or there is none, and every omitting request definitely fails, under three-valued logic. |
| `FindLaws.UndecidedRequest` | server/internal/data/service.go:648-660 | A request is neither met nor definitely failed exactly when a field it compares says nothing and all its other criteria are met. |
| `FindLaws.OmitIsSubtraction` | server/internal/data/service.go:644-660 | A find gives, for a record, what including less omitting promises exactly unless the record is promised and some omitting request leaves it open; such a record is left out. |
| `FindLaws.FoundSetIsDifference` | server/internal/data/service.go:644-809 | Where omitting requests use only IS_EMPTY, IS_NOT_EMPTY, != and related criteria, the found set is the union of the including requests, or everything, less the union of the omitting ones. |
| `FindExceptions.OmitLosesUnknown` | server/internal/data/service.go:644-660 | Omitting a city leaves out a record that has no city, which the request does not match. |
| `FindNumbering.RequestHoles` | server/internal/data/service.go:669-673 | The placeholders of a request are numbered on without a gap from where it starts, one for each value, and it has values exactly when one of its operators takes one. |
| `FindNumbering.PlaceholdersAligned` | server/internal/data/service.go:745-809 | The placeholders of a find are numbered from 1 to the number of values, each once; they stand in the order of their numbers, so that reading them by position changes no number, if and only if no omitting request with values comes before an including one with values. |
| `FindExceptions.PositionMisleads` | server/internal/data/service.go:648-660 | Omit one value, then find another: taken by position the values are exchanged, and a record the find promises is not found. |
| `Sql.Renumbers` | server/internal/dbal/mariadb/dialect.go:25-27 | Reading placeholders by position leaves a condition as it is exactly if they are written in the order of their numbers. |
| `FindRelated.RelatedFindAgrees` | server/internal/data/related.go:554-580 | A criterion on a related field finds a record exactly when the unpaged related rows contain one that meets it, unless the match value is white space alone and a row compares with it and meets the criterion. |
| `FindExceptions.BlankKeyDiffers` | server/internal/data/related.go:253-263 | With a match value of one space the find reaches a record and the related read lists none. |
| `FindRelated.ChildrenAreRelated` | server/internal/data/related.go:271-341 | The children a cascade reads are the first page of the related records. |
| `FindRelated.TargetsResolve` | server/internal/data/related.go:497-535 | Every relationship a criterion reaches through is resolved to where it leads, and the find fails if and only if one leads nowhere. |
| `FindRelated.ResolvedMeans` | server/internal/data/related.go:79-126 | A related criterion reaches through a relationship of its name that leads from the table searched to the occurrence named, or away from the table where none is, and compares as the sign of the relationship stands for. |
| `FindMethods.ResolveRelations` | server/internal/data/related.go:497-535 | The loop over requests and criteria, resolving each relationship once, builds those targets or stops at the first failure. |
| `FindMethods.ClauseBuilder.Criterion` | server/internal/data/service.go:666-733 | The method that numbers placeholders and appends values returns the condition whose verdict CriterionMeans states, and has counted exactly its values. |
| `FindMethods.ClauseBuilder.RelatedCriterion` | server/internal/data/related.go:554-580 | The same for a criterion on a related field, its errors included. |
| `FindMethods.ClauseBuilder.Request` | server/internal/data/service.go:758-806 | The loop over the criteria of a request, skipping those without a field, does what the specification does. |
| `FindMethods.ClauseBuilder.Build` | server/internal/data/service.go:745-809 | The loop over the requests returns the clause and values of the specification, or its first error. |
| `Sessions.Store.Prune` | server/internal/auth/session.go:301-307 | Exactly the sessions whose end has not come stay, as they were. |
| `Sessions.Store.Create` | server/internal/auth/session.go:94-121 | The sessions whose end has come go, and the new one is there, of who signed in, counted once and ending a lifetime from now. |
| `Sessions.Store.Get` | server/internal/auth/session.go:149-170 | A session is returned exactly if it is there and its end has not come, and then ends a lifetime from now; one whose end has come is removed. |
| `Sessions.Store.TouchMeta` | server/internal/auth/session.go:125-146 | Only the named session changes: seen now, one request more, and origin fields where one is given. |
| `Sessions.Store.Restamp` | server/internal/auth/session.go:174-183 | Only the stamp of the named session changes. |
| `Sessions.Store.RevokeUser` | server/internal/auth/session.go:198-210 | Exactly the sessions of the user in the database go, but for the one kept; which ones is said step by step in Lifetimes. |
| `Sessions.Store.RevokeDatabase` | server/internal/auth/session.go:213-221 | Exactly the sessions of the database go. |
| `Sessions.Attach` | server/internal/api/auth.go:73-111 | With nothing in between, a request passes exactly with a session that is there, whose end has not come and whose stamp is the account's, and that session then ends a lifetime from now; a differing stamp or a missing account revokes it, an unreachable database leaves it. |
| `Lifetimes.FoundInTime` | server/internal/auth/session.go:94-170 | Over every run a request finds its session if and only if less than a lifetime has gone by since the session was opened or last found, and nothing has revoked it since; one that does not find it leaves it gone. |
| `Lifetimes.DecidedInTime` | server/internal/api/auth.go:73-111 | A request that is decided, whichever way, found its session in time. |
| `Lifetimes.FoundAgain` | server/internal/auth/session.go:149-170 | Found in time, a session can be found for a lifetime more, however often, until something revokes it. |
| `Lifetimes.RefusedWhenLate` | server/internal/auth/session.go:163-166 | A request a lifetime or more after the last use of its session is refused, and the session is gone. |
| `Lifetimes.SessionBelongs` | server/internal/auth/session.go:94-146 | Every session in the store is that of who opened it, from when it was opened, and has counted every request that passed on it. |
| `Lifetimes.StepCarries` | server/internal/auth/session.go:125-183 | What any step changes in a session but its end: a read when it was seen, a request that passes that, the count and the origin where one is given, and a restamp the stamp. |
| `Protocol.AcceptedIsCurrent` | server/internal/api/auth.go:73-111 | Over every interleaving of sign-ins, requests, account changes, revocations and restamps, a request is decided by a session that was there and unexpired when it was read, and passes exactly if the database answered and the account had the session's stamp when it was compared afterwards. |
| `Protocol.StepSound` | server/internal/auth/session.go:94-210 | Every step keeps it so that every stamp a session or a thread carries was its account's in the version it is said to be from, and that a key never changes hands. |
| `Protocol.StepRefused` | server/internal/api/security_handler.go:519-534 | Every step keeps it so that no session opened late is accepted or about to be. |
| `Protocol.LateNeverAccepted` | server/internal/api/auth.go:90-102 | Where no account has a stamp twice, a session opened by a sign-in that had read an earlier state of the account is never accepted, whatever happens before and after. |
| `Protocol.AcceptedIsOfCurrentState` | server/internal/api/auth.go:90-102 | Where no account has a stamp twice, a request passes exactly if its session has its stamp from the very state the account is in when it is asked, so no change lies in between. |
| `ProtocolExceptions.ComebackAccepts` | server/internal/schema/security_service.go:66-73 | A run in which the account comes back to an earlier stamp and a late session is accepted: the condition on stamps is needed. |
| `Accounts.Server.UpdateUser` | server/internal/api/security_handler.go:471-540 | Who may change what, the changed account, and the sessions ended: on every refusal nothing changes, on success exactly the account's sessions go but for the caller's own, which gets the new stamp if that can be read. |
| `Accounts.Server.DeleteUser` | server/internal/api/security_handler.go:596-623 | The account and all its sessions go, or nothing changes. |
| `Accounts.Server.SetSuperOwner` | server/internal/api/security_handler.go:553-594 | The flag changes and all sessions of the account go, or nothing changes. |
| `Accounts.UpdateMeans` | server/internal/api/security_handler.go:478-516 | An update goes through if and only if there is such an account, nothing refuses it, and the caller is an owner, an admin and no owner is or comes of it, or changes the password of their own; and it makes of the account what was asked. |
| `Accounts.UpdateEnds` | server/internal/api/security_handler.go:517-534 | A new password, another role or inactivity ends every session of the account but the one the caller changes their own password from, which gets the new stamp if it can be read; no other session changes, and no other update ends any. |
| `Accounts.DeleteMeans` | server/internal/api/security_handler.go:596-619 | Anyone but oneself can be deleted, an owner by owners alone. |
| `Accounts.SuperMeans` | server/internal/api/security_handler.go:553-585 | Owners alone can be made super-owners, and no one takes it from themselves. |
| `Accounts.ChangeEndsSessions` | server/internal/api/security_handler.go:517-534 | After a change that ends sessions, a session of the account passes exactly if it is the one kept, is unexpired, and was given the new stamp or had it already; no other session changes. |
| `Accounts.UpdateIsSteps` | server/internal/api/security_handler.go:517-534 | With nothing in between, the handler is the steps of the protocol: change, revoke, read the new stamp, restamp; they leave the same sessions, of the account none but the kept one, and that with the current stamp. |
| `Accounts.ChangedAndRevoked` | server/internal/api/security_handler.go:577-585 | Changing an account and revoking its sessions are two steps that leave the account with the new stamp and none of its sessions but the one kept. |
| `Accounts.DeleteIsSteps` | server/internal/api/security_handler.go:614-619 | Deleting an account is two steps of the protocol, after which the account is not there and none of its sessions are. |
| `Throttle.LoginThrottle.Allow` | server/internal/auth/throttle.go:47-66 | Refused exactly while a lock lasts, and for as long as it lasts; failures are forgotten a window after the first of them. |
| `Throttle.LoginThrottle.Fail` | server/internal/auth/throttle.go:70-88 | One failure more, counted anew after the window; the key is locked exactly when the limit is reached. |
| `Throttle.LoginThrottle.Succeed` | server/internal/auth/throttle.go:91-98 | The key's record goes, and no other. |
| `Throttle.KeysAreIndependent` | server/internal/auth/throttle.go:47-98 | However operations on other keys come in between, a key's record is what its own operations make of it. |
| `Throttle.ThrottleBound` | server/internal/auth/throttle.go:47-88 | In any run of gated wrong attempts no more get through than the limit, plus one less than the limit for every window that fits before the first lock, plus one for every lockout that fits after it. |
| `Throttle.BoundIsReached` | server/internal/auth/throttle.go:70-88 | For all limits, for every number of windows waited out before the first lock and of lockouts sat out after it, there is a run that lets through exactly as many as the bound. |
| `Throttle.QuietBoundIsReached` | server/internal/auth/throttle.go:62-64 | The bound for runs that never lock is reached as well, for every number of windows. |
| `Throttle.LockStays` | server/internal/auth/throttle.go:70-98 | Over every run without a success a locked key keeps its record, also when the lock has run out, and every failure locks it again. |
| `Throttle.SteadyNeverLocks` | server/internal/auth/throttle.go:62-64 | Failing at every half of the window, or a little more, never locks a key that takes more than two failures: they are forgotten a window after the first, without any gap. |
| `Throttle.NoLimitNoLock` | server/internal/auth/throttle.go:47-50 | Without a number of failures that locks every attempt is allowed, whatever came before. |
| `Numbers.Normalize` | server/internal/data/import.go:94-127 | The method that reassigns the text is the specification. |
| `Numbers.NormalizeUndoesGrouping` | server/internal/data/import.go:94-127 | A number written with at least one group separator and a decimal part, as 1,234.5 or 1.234,5 and with any spaces in it, comes back as its plain decimal text. |
| `Numbers.LoneComma` | server/internal/data/import.go:113-121 | A single comma without a point is a decimal point exactly unless three characters follow it. |
| `ImportMeaning.PlainMeans` | server/internal/data/import.go:94-127 | For any text: the last of points and commas marks the decimals where there are both, a comma alone does unless three characters follow it, and all other commas, or points, go. |
| `ImportMeaning.CoerceMeans` | server/internal/data/import.go:148-217 | What a cell of each kind of field stands for: text for itself, the words for yes and no, plain numbers, dates in the order asked for, timestamps, base64, nothing for nothing; or that it stands for nothing the field can hold. |
| `ImportMeaning.ReadMeans` | server/internal/data/import.go:334-345 | The record of a row holds what its mapped cells stand for and nothing else; there is one if and only if each stands for something, and otherwise the first that does not is named. |
| `ImportMeaning.OptionsMean` | server/internal/data/import.go:221-275 | Options are taken if and only if they are acceptable: they add or update, map existing columns to existing fields that are no summaries, none twice and at least one, and update by mapped fields; what is written are the fields mapped to. |
| `ImportMeaning.RowMeans` | server/internal/data/import.go:346-387 | A row updates a record that has its key but for letter case with all it holds except the id, or else is passed over or added with every field of the table, as the options say; nothing else changes and the counts tell which it was. |
| `ImportMethods.CheckImportOptions` | server/internal/data/import.go:221-275 | The checks before anything is written, in their order, and the fields that will be. |
| `ImportMethods.CheckCalculated` | server/internal/data/import.go:303-312 | A column for a calculation field is refused. |
| `ImportMethods.ReadRow` | server/internal/data/import.go:334-345 | The loop over the mapped columns makes the record of a row, or stops at the first cell that does not convert. |
| `ImportMethods.FindMatchingRecord` | server/internal/data/import.go:398-429 | An empty key matches nothing; otherwise one of the records that agree in every match field but for letter case. |
| `ImportMethods.ImportTable.ImportRecords` | server/internal/data/import.go:282-387 | All or nothing: options, then the table's formulas or their ring, then rows; either every row is imported and the report is that of the specification, or the table is as it was. |
| `ImportLaws.ImportedIsReady` | server/internal/data/import.go:282-314 | An import that goes through had its options in order and its formulas in dependency order, so that what follows applies to it. |
| `ImportLaws.ImportCounts` | server/internal/data/import.go:330-387 | Added, updated and skipped rows are all the rows, no record goes, and the table grows by exactly those added. |
| `ImportLaws.ImportLeavesAlone` | server/internal/data/import.go:452-476 | No field without a column or a formula changes in any record, and no id does. |
| `ImportLaws.UpdateKeepsMatch` | server/internal/data/import.go:398-476 | A matching update changes a key in letter case at most: whatever matched the record matches it still. |
| `ImportLaws.RepeatAddsEmptyKeys` | server/internal/data/import.go:282-429 | Importing a file again, matching on text fields other than the id and adding unmatched rows, adds exactly the rows with an empty key and updates a record for every other row. |
| `ImportLaws.IdKeyNeverMatches` | server/internal/data/import.go:366-380 | Matched on the id, a row that finds no record is added under an id of its own and finds none the next time either. |
| `ImportLaws.UpdateKeepsFormulas` | server/internal/data/import.go:347-365 | A matching update whose columns cover every base field the formulas read, the id not among these, leaves every formula satisfied, whatever the record held. |
| `ImportLaws.AddKeepsFormulas` | server/internal/data/import.go:347-379 | An added record satisfies every formula whatever columns there are, if no formula reads the id, which is set after they are computed. |
| `ImportLaws.ImportKeepsFormulas` | server/internal/data/import.go:330-387 | Where no formula reads the id, an import that only adds leaves every formula satisfied in every record, and one that updates does if its columns cover what the formulas read. |
| `ImportLaws.UpdateHoldsIff` | server/internal/data/import.go:351-365 | The formula that is one field holds after a matching update if and only if the field has a column and is not the id, or comes to the same in the record as in the row. |
| `ImportLaws.UncoveredBreaks` | server/internal/data/import.go:347-365 | The formula that is a field without a column holds after a matching update if and only if the record has nothing in that field: the cover is needed. |
| `ImportLaws.AddHoldsIff` | server/internal/data/import.go:347-379 | The formula that is the id holds in an added record if and only if the file gave the record the very id it was added under, and never where no column goes to the id. |
| `ImportExceptions.IdIsReadTooEarly` | server/internal/data/import.go:347-379 | A formula that copies the id is left empty in a record an import adds. |
| `ImportExceptions.UpdateLosesBadge` | server/internal/data/import.go:351-365 | A formula that copies a field is emptied by a matching update from a file without that field. |
| `Summary.GroupsPartition` | server/internal/data/summary.go:370-435 | Whatever is weighed, every row of the found set counts in exactly one group. |
| `SummaryMeaning.FigureMeans` | server/internal/data/summary.go:161-218 | The count is the number of rows that hold something in the field; total and average are there exactly if one does, the total being the numbers added up and the average times the count the total. |
| `SummaryMeaning.GroupsMean` | server/internal/data/summary.go:370-435 | There is one group for every combination of break values a row has and none else; it counts the rows that have it, and its figures are those over these rows. |
| `SummaryMeaning.ShareMeans` | server/internal/data/summary.go:439-464 | A share is there exactly if there is a part and a total other than zero, and times the total it is the part. |
| `SummaryMeaning.WantedMeans` | server/internal/data/summary.go:256-290 | A report is made exactly if every summary asked for is known and every field it needs is there: of those asked for, or of all if none is. |
| `Summary.GroupsAddUp` | server/internal/data/summary.go:256-435 | The counts of the groups add up to the count of the found set, and the totals and counts of every field to the grand figure, nothing counting as zero. |
| `Summary.SharesAddUp` | server/internal/data/summary.go:439-464 | The shares in a grand total other than zero add up to one, and of a total that is zero or nothing there is no share. |
| `Summary.SummaryResult.ApplyFractions` | server/internal/data/summary.go:439-464 | Turning totals into shares in place, field by field and group by group, changes exactly the fraction fields and each by the grand total as it was. |
| `Summary.SummaryResult.constructor` | server/internal/data/summary.go:337-435 | The grand figures and one group for every combination of break values, in the engine's order. |
| `Summary.Report` | server/internal/data/summary.go:304-333 | The grand figures and the groups over the rows of a found set, with shares for the totals of the fraction fields. |
| `Summary.ReadRequest` | server/internal/data/summary.go:256-290 | The summaries asked for, or all, and their names; or the error for a summary or field that is not there. |
| `FoundSets.TranslateFind` | server/internal/data/summary.go:291-299 | A find is one query: its relationships resolved, then its criteria translated. |
| `FoundSets.FoundIsMeant` | server/internal/data/service.go:644-809 | The found set of that query has exactly the records its requests find. |
| `FoundSets.ExportRows` | server/internal/data/import.go:546-571 | An export of a find, sorted by id, is its whole found set, or the error of its translation. |
| `FoundSets.ExportIsFind` | server/internal/data/import.go:546-571 | It lists a record exactly if the requests find it, and once. |
| `FoundSets.Summarize` | server/internal/data/summary.go:256-334 | The report of a request: its errors in order, or the figures over the records its find returns. |
| `FoundSets.ReportIsOfFind` | server/internal/data/summary.go:256-334 | The rows a report is over are the records its requests find, each once, and its count is their number. |

## Left out

- Cascade.CascadeExact: the condition is sufficient, and `DeepCascadeMisses` shows it sharp for every page size; whether a cascade outside it leaves records behind depends on the order in which the engine returns rows, which the model leaves open.
- FindLaws.FoundSetIsDifference: states the found set before it is sorted and paged.
- FoundSets.ExportRows: covers the default sort by id; an export sorted by other fields pages by what may not be a total order.
- Grammar.ParseMeans: says which texts are refused, not which of its errors a refused text is reported with; the methods of the parser are tied to the errors of the specification.
- SummaryMeaning.FigureMeans: what the engine adds up of a value that is no number is taken as zero.
- RoundTrip.FormulaRoundTrip: covers numerals that are plain decimals; a field called NOT is not printable, because the name reads as the operator.
- ImportLaws.RepeatAddsEmptyKeys: covers match fields that hold text; how a number or a date casts back to text is the engine's.
- FindNumbering.PlaceholdersAligned: the key of a resolved relationship, one string with a zero byte between its parts, is a pair here.
- Protocol.LateNeverAccepted: assumes that no account has a stamp twice; stamps are hashes, and a role changed and changed back repeats one. A digest collision of two tokens is not modelled.
- Protocol.AcceptedIsCurrent: takes each operation on the session store and each read of an account as one atomic step; the mutex that makes the former so is not modelled. Sessions are values in a map, where the source keeps pointers that never leave the store.
- Throttle.ThrottleBound: covers attempts on one key one after another; attempts that overlap can all be allowed before the first of them fails.
- Accounts.Server.UpdateUser: the rules of the account service itself (known roles, the last active owner) are one parameter.
- ImportMethods.ImportTable.ImportRecords: the transaction works on a copy of the table that takes its place at the commit; what others see or do meanwhile is not modelled.
- FoundSets.Summarize: minima, maxima and deviations are the engine's.
- FindTyped.TypedIsRead: covers values with no operator of their own; two slashes inside a longer value are replaced, but no criterion is read back from them.
- Listing sessions and revoking one by the beginning of its digest.
- Rounding of floating-point numbers, infinities and NaN, powers of ten in ROUND, overflow of counts in 64-bit integers, and durations that saturate.
- Unicode case folding, date and time layouts, and a clock that moves while a request is served.
- Validation rules, auto-enter options other than constants, container decoding and privilege checks: a parameter says whether a record is accepted.
- The JSON in which formulas, summaries and requests arrive or are stored, and the definition checks of summary fields.
- Sort orders of lists other than by id, and the creation of related records.
- HTTP, routing, telemetry, the client, crypto, the control store, the schema service, the desktop update and reading and writing of CSV and workbooks.
