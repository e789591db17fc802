# Verified model of the document engine's core

This project models six parts of the engine whose correctness is not visible from reading one function, and proves
what each of them is for. `dafny verify dfyconfig.toml` checks all of it.

**Answer arithmetic (`pkg/calc/calc.go`).** `CalcLexer` cuts an expression into tokens with a loop over bytes;
`CalcNumbers` states the number pattern on whole texts and shows that what is cut off is the longest match.
`CalcGrammar` holds the five grammar rules as syntax trees and what a tree means; `CalcParser` is the
recursive-descent parser fused with its evaluator, a class whose methods move `pos`, proved to compute the value of
the one tree the grammar derives. `CalcPrint` lays any tree out with the fewest parentheses and shows that evaluating
the layout gives the tree's value, and `CalcOperations` and `CalcTexts` say of each operator, by its name and by its
spelling, what it does. `CalcOperands` reads operands and their signs off the token list. `CalcResolve` is Resolve's
single pass, with one output buffer it rewrites and a stack of open marks, proved equal to the recursive reading of
the nesting; `CalcWritten` says what it writes for a set-up. `CalcAnswer` is one calculation as text; `CalcFeeds` and
`CalcFails` say what an inner set-up does to the one around it, `CalcMarks` which operands are marked as inner
results. float64 is a type parameter whose operations are the fields of a record, so everything holds for IEEE
arithmetic.

**Contents tree (`pkg/ingest/toc_builder.go`, `toc_extract_judge.go`, `toc_judge.go`).** Titles and shape are
immutable (`TocTree.Toc`) and the two pages of a node are a mutable cell, so the passes that write pages in place do
so here. `TocAssemble` models Go slices with their backing arrays, because `assembleHierarchy` appends to slices it
holds pointers into. `TocOrder` and `TocRepair` are the dynamic programme and the repair, `TocEndPages` and `TocSpans`
the end pages, `TocPages` what single sections get from all of these, `TocCalibrate` and `TocCalibrateWalk` the
calibration, `TocDedup` the compaction that overwrites the slice it is reading, `TocBatch` the greedy batching.

**Section tree through the database (`pkg/ingest/ingest.go`, `pkg/db/sections.go`).** `Persist` plans the rows,
`Sections` writes and lists them, `LoadTree` rebuilds the tree from heap objects; the main theorem is the round trip.

**Idempotent ingest (`internal/handler/documents.go`, `pkg/db/documents.go`).** `Ingest` is a state machine of the
handler's atomic effects on the row table, the object store and the queue. Any number of requests run interleaved;
every effect may fail, and may fail after having happened.

**Enrichment stages (`pkg/ingest/ingest.go`, `pkg/ingest/hyde.go`).** `Stages` is a state machine of the summary and
HyDE workers with their two stage semaphores, the shared one, the depth layers and cancellation; `StageFacts` holds
safety and progress.

**Cache and limiter (`pkg/cache/cache.go`, `internal/middleware/ratelimit*.go`).** `Lru` is a map and a list of shared
mutable entries refining one recency list, `LruRuns` what that means over runs. `Limiter` is the token bucket, the
per-principal store and the reaper, `LimiterRuns` what it promises over runs.

## What was found

- `<<<<1-3>> ** 2>>` reads as `-2 ** 2`: a negative inner value as the base of a power loses its sign
  (`CalcNesting.NegativeBaseLosesItsSign`). That is the only such place (`CalcNesting.ReadInPlaceIff`).
- `<<<<1) + (2>>>>` evaluates although its inner set-up fails (`CalcNesting.UnbalancedInnerCanSucceed`), where the
  comment at `pkg/calc/calc.go:73-74` says that this cannot be. What holds is that a failing inner set-up whose
  parentheses balance always fails the outer one (`CalcFails.FailedInnerFailsOuter`): inside an outer set-up that
  evaluates, one left in its parentheses evaluates too if and only if they balance
  (`CalcNesting.FailedInnerFailsOuter`).
- `<<5<<2>>>>` is read as 52 (`CalcLexerFacts.FiguresGlue`); where a number may stand this cannot happen.
- The place of an inner result is counted after trimming spaces, tabs and newlines, the expression is trimmed of all
  Unicode white space. So when other white space opens a set-up (a carriage return, vertical tab or form feed, U+0085,
  a no-break space, the spaces from U+2000 on and the rest of Unicode's), the mark of a derived operand is lost
  (`CalcMarks.ReturnHidesMark`) or lands on a number that was typed, which Trace then skips: with a one-digit result d
  and an opening of two such bytes, as in `<<` U+00A0 `<<d>>+2>>`, the typed 2 is marked and d is not
  (`CalcMarks.WrongOperandMarked`, `CalcMarks.OpeningsThatSkew`). A currency sign directly before the inner set-up
  loses the mark as well, because the operand then begins at the sign (`CalcMarks.CurrencyHidesMark`).
  `CalcMarks.ResultMarkedIff` is the exact condition, `CalcMarks.MarkedIffWritten` the rule behind it for every
  operand.
- A 202 may name a document that no job will ever build: an enqueue that fails leaves its row for later requests to be
  given (`Ingest.AcceptedWithoutJob`). A document has a job exactly when its own request's enqueuing took effect
  (`Ingest.JobsAreOfInserters`).
- The comment at `pkg/cache/cache.go:83-85` says that `Set` drops expired entries; it does not
  (`LruRuns.SetKeepsTheExpired`, where a live entry goes and an expired one stays). What it drops is decided by
  recency alone (`LruRuns.SetLosesTheOldest`), so no expired entry is left exactly when none was among those it keeps
  (`LruRuns.SetDropsNoneForExpiry`). `evictions` also counts deletes and expiries, which is what makes the books
  balance (`LruRuns.CountersBalance`).
- The bucket throws away fractions of a token, so no lower bound on admissions holds: once its bucket is empty, a
  principal is never admitted again if and only if each request comes sooner after the one before it than one token
  takes to earn (`LimiterRuns.StarvedInARun`, and from no buckets at all `LimiterRuns.StarvedAfterBurst`).
- A negative shared LLM cap becomes 12, not "disabled": `pkg/ingest/ingest.go:320-325` turns it into zero and zero
  into the default (`StageFacts.PipelineNeverDeadlocks` covers every setting).
- A page that is not positive comes back from the database as zero (`Sections.ColumnsComeBack`).

## Model

| member | source | states |
|---|---|---|
| CalcLexer.Tokenize | pkg/calc/calc.go:267-311 | the loop over bytes gives exactly the tokens of the recursive reading, with their positions, or none when some part is no token or there is none at all |
| CalcLexer.Scan | pkg/calc/calc.go:275-304 | one turn of that loop reads the token that starts there, an operator, a parenthesis, two stars as a power or a number, and takes at least one byte |
| CalcNumbers.NumberMatches | pkg/calc/calc.go:261-265 | what the scanner takes as a number is matched whole by the number pattern: an optional currency sign and gap, digits in real groups or none, a fraction, a percent sign |
| CalcNumbers.NumberIsLongest | pkg/calc/calc.go:261-265 | no text the pattern matches that stands there is longer than what the scanner takes, so where it takes none there is none |
| CalcNumbers.NumberReadsAs | pkg/calc/calc.go:313-329 | every number of the pattern reads as its digits and point do, currency sign and commas left out, and as a percentage if a percent sign ends it |
| CalcLexer.ScannerReads | pkg/calc/calc.go:267-306 | the scanner that reads tokens as the loop does meets the hypothesis under which the statements on text are made |
| CalcLexer.Ascii | pkg/calc/calc.go:268-270 | replacing typographic operators keeps the length, so a position in the scanned text is one in the expression as written |
| CalcLexerFacts.LexSplits | pkg/calc/calc.go:267-306 | a text is read the same before a parenthesis or a sign as alone, whatever it is and whether or not it can be read |
| CalcLexerFacts.LexBeforeNumber | pkg/calc/calc.go:265-306 | a text in which a number may come next is read the same before one as alone: nothing glues |
| CalcLexerFacts.NumberSplits | pkg/calc/calc.go:261-265 | what follows a number does not change how much of the text it takes, unless it is a digit, comma, point or percent sign |
| CalcLexerFacts.FiguresGlue | pkg/calc/calc.go:261-306 | two runs of digits written side by side are one number, so the condition on where results stand is needed |
| CalcParser.Parser.Expr | pkg/calc/calc.go:343-364 | from any position the method succeeds exactly when the grammar's rule derives a prefix whose tree is computable, with that tree's value and position |
| CalcParser.Parser.Term | pkg/calc/calc.go:373-398 | the same for the rule of products, with division by zero and overflow as failures |
| CalcParser.Parser.Unary | pkg/calc/calc.go:400-410 | the same for signs |
| CalcParser.Parser.PowerRule | pkg/calc/calc.go:417-450 | the same for powers, with every guard on base and exponent |
| CalcParser.Parser.Atom | pkg/calc/calc.go:452-475 | the same for numbers and parentheses |
| CalcParser.EvaluateTokens | pkg/calc/calc.go:483-495 | a token list evaluates to v if and only if the grammar derives it, its tree evaluates to v, and every intermediate value and v are finite |
| CalcParser.EvaluatesIffParsed | pkg/calc/calc.go:343-495 | the declarative reading and the parser agree for every value |
| CalcParser.TreeIsUnique | pkg/calc/calc.go:343-475 | the grammar is unambiguous: a token list has at most one tree |
| CalcParser.ParseFindsTree | pkg/calc/calc.go:343-475 | the parser accepts every token list a tree derives and finds that tree |
| CalcParser.ValueIsUnique | pkg/calc/calc.go:478-495 | an expression has at most one value |
| CalcPrint.PrintEvaluates | pkg/calc/calc.go:343-475 | the tokens of any tree, laid out with parentheses only where precedence asks, evaluate to v exactly when the tree does |
| CalcPrint.LayoutIsMinimal | pkg/calc/calc.go:343-475 | a tree the rules already derive is laid out with no parenthesis added |
| CalcPrint.Grouping | pkg/calc/calc.go:343-451 | without parentheses, + and - group to the left and so do * and /; powers group to the right and bind before a sign on their left |
| CalcPrint.Precedence | pkg/calc/calc.go:343-451 | a tighter operator is applied first on either side of a looser one: products before sums, powers before products |
| CalcOperations.Sums | pkg/calc/calc.go:343-364 | two operands, each a number or any expression in parentheses, with + between them have value v exactly when v is their finite sum |
| CalcOperations.Differences | pkg/calc/calc.go:343-364 | with - between them, the first less the second |
| CalcOperations.Products | pkg/calc/calc.go:373-398 | with *, their finite product |
| CalcOperations.Quotients | pkg/calc/calc.go:373-398 | with /, the first over the second, finite, and none if the second is zero |
| CalcOperations.Powers | pkg/calc/calc.go:412-450 | with **, the power, exactly when both are finite, the exponent is at most 100 either way, a negative base has a whole one, a zero base no negative one, and the power is finite |
| CalcOperations.Signs | pkg/calc/calc.go:400-410 | a minus sign before an operand negates it, a plus sign does not |
| CalcOperations.LeftFirst | pkg/calc/calc.go:343-398 | of two operators that bind equally, powers apart, or the first of which binds tighter, the first is done first and must come to something finite; what it comes to then stands as a number before the second |
| CalcOperations.RightFirst | pkg/calc/calc.go:373-450 | of two powers, or two operators the second of which binds tighter, the second is done first |
| CalcOperations.PowerBeforeSign | pkg/calc/calc.go:412-419 | a power is done before a sign on its left |
| CalcTexts.SumText | pkg/calc/calc.go:267-364 | as text: any two numbers with + between them, and blanks around that, have their sum as value if it is finite and none if not |
| CalcTexts.DifferenceText | pkg/calc/calc.go:267-364 | their difference, the sign typed or typeset as a minus sign or an en dash |
| CalcTexts.ProductText | pkg/calc/calc.go:267-398 | their product, by a star or a multiplication sign |
| CalcTexts.QuotientText | pkg/calc/calc.go:267-398 | their quotient, by a slash or a division sign, and none by zero |
| CalcTexts.PowerText | pkg/calc/calc.go:267-450 | their power, by two stars or a caret, under the guards on base and exponent |
| CalcTexts.InfixTokens | pkg/calc/calc.go:267-306 | such a text has three tokens, with the numbers as typed and where they begin |
| CalcTexts.ParensAreRead | pkg/calc/calc.go:288-293 | parentheses are read as themselves, whatever follows |
| CalcOperands.Operands | pkg/calc/calc.go:500-524 | the loop lists one operand for each number in order, under the signs directly before it |
| CalcOperands.ReadOperand | pkg/calc/calc.go:510-522 | the backward walk over signs gives the operand's text and value for the whole unbroken run of them |
| CalcOperands.OperandsAreTheTrees | pkg/calc/calc.go:400-410 | on every token list the grammar derives, the signs marked as unary are exactly those the rule for signs consumes, and the operands are the tree's |
| CalcOperands.SignsByParity | pkg/calc/calc.go:513-520 | an operand's value is its literal, negated exactly when an odd number of minus signs stands before it |
| CalcOperands.OperandSays | pkg/calc/calc.go:506-522 | an operand's text is the longest run of unary signs before its number and then the number, its value the number's negated once for each minus sign, its place the number's |
| CalcResolve.Resolve | pkg/calc/calc.go:76-148 | the single pass over one rewritten buffer gives the text and the calculations, innermost first, of the recursive reading of the nesting |
| CalcResolve.CloseInnermost | pkg/calc/calc.go:111-134 | closing a set-up leaves buffer, stack and places of inner results as the reading of the nesting says, in all four cases |
| CalcResolve.Cut | pkg/calc/calc.go:86-98 | what is cut out of the buffer is the set-up's text with Unicode white space trimmed off, and the places of inner results counted from where its spaces, tabs and newlines end |
| CalcResolve.FailInnermost | pkg/calc/calc.go:138-146 | a set-up never closed becomes one failed calculation over all that follows it |
| CalcResolve.NestingReads | pkg/calc/calc.go:100-137 | every text has a nesting that spells its marks back |
| CalcResolve.NestingIsUnique | pkg/calc/calc.go:100-137 | and only one |
| CalcWritten.SetUpIsWritten | pkg/calc/calc.go:66-134 | any set-up, between anything: outside the others it becomes its value and (= its expression), or its expression and a note; inside one its value alone, or its expression in parentheses; its calculation comes last of those in it |
| CalcWritten.OpenSetUpIsWritten | pkg/calc/calc.go:138-146 | a set-up never closed becomes its expression and the note, and is on record with its error |
| CalcWritten.StrayIsRecorded | pkg/calc/calc.go:104-108 | a closing mark that closes nothing leaves the text and is on record with its error |
| CalcWritten.SpelledIsRead | pkg/calc/calc.go:100-137 | the text of any nesting without other angle brackets is read back as that nesting |
| CalcWritten.AnswerSays | pkg/calc/calc.go:66-169 | a text with one set-up in it becomes that text with the formatted value and the expression in the set-up's place, or the expression and a note, and one calculation is on record, with the value or the reason |
| Text.WhiteIsTrimmed | pkg/calc/calc.go:98 | at either end of a text exactly the characters that are Unicode white space are trimmed, for every code point |
| CalcResolveFacts.OneCalculationPerMark | pkg/calc/calc.go:66-75 | every level is recorded: one calculation per opening mark and one per closing mark that closes nothing |
| CalcResolveFacts.TextOutsideIsUnchanged | pkg/calc/calc.go:66-69 | text outside set-ups is unchanged byte for byte and changes no calculation |
| CalcResolveFacts.ReadsTheSameAnywhere | pkg/calc/calc.go:76-148 | what a set-up comes to does not depend on what stands before it |
| CalcAnswer.Evaluate | pkg/calc/calc.go:478-495 | the value of a text, or an error: tokenized, parsed and finite |
| CalcAnswer.EvaluateSetUp | pkg/calc/calc.go:150-169 | one calculation: its value or why it has none, and its operands, those at the given places marked as derived |
| CalcAnswer.ValueIsTheTokens | pkg/calc/calc.go:478-495 | a text has value v exactly when it can be tokenized and its tokens evaluate to v |
| CalcAnswer.ResultReadInPlace | pkg/calc/calc.go:123-131 | where a number may stand, a result written there is read as that number and the text around it as without it |
| CalcNesting.InnerValueFeedsOuter | pkg/calc/calc.go:71-73 | on tokens: the outer set-up with a result written in evaluates to what its tree does with that value in that place, and is undefined exactly where that is |
| CalcNesting.ReadInPlaceIff | pkg/calc/calc.go:343-475 | the written result keeps the outer tree's shape if and only if it is not negative or not the base of a power |
| CalcNesting.NegativeBaseLosesItsSign | pkg/calc/calc.go:417-419 | a concrete set-up where the condition fails |
| CalcNesting.FailedInnerFailsOuter | pkg/calc/calc.go:73-74 | on tokens: inside an outer set-up that evaluates, one left in parentheses evaluates too if and only if its own parentheses balance |
| CalcNesting.UnbalancedInnerCanSucceed | pkg/calc/calc.go:119-121 | a concrete failing inner set-up whose outer one evaluates |
| CalcFeeds.InnerFeedsOuter | pkg/calc/calc.go:71-73 | on text, whatever else the outer set-up holds: where a number may stand, its calculation has the value of its tree with the inner value in that place, and none exactly where that has none, a currency or percent sign directly around the inner set-up included |
| CalcFeeds.ResolvedNested | pkg/calc/calc.go:66-148 | the last calculation Resolve records for a text with one set-up around another is the outer one, with the value of its tree with the inner value in place |
| CalcFeeds.SetUpIsCalculated | pkg/calc/calc.go:111-116 | a set-up's calculation is on record and is the same whatever stands before it and around it |
| CalcFeeds.NegativeBehindCurrencyFails | pkg/calc/calc.go:261-306 | a negative result directly behind a currency sign is no number: the outer set-up fails, whatever else it holds |
| CalcMarks.MarkedIffWritten | pkg/calc/calc.go:93-98 | an operand of any calculation is marked as derived if and only if an inner result was written as many bytes before it as the two trimmings differ by, and so, where they agree, exactly where it begins |
| CalcMarks.NotesAreResults | pkg/calc/calc.go:123-131 | the places noted while a set-up is read are exactly those where the numbers of results written in it begin, after their signs |
| CalcMarks.ResultIsOperand | pkg/calc/calc.go:500-522 | an inner result is an operand of the outer calculation, beginning at its number or at the currency sign before that |
| CalcMarks.ResultMarkedIff | pkg/calc/calc.go:150-160 | the operand that the first inner result is in the outer calculation is marked if and only if trimming Unicode white space and trimming spaces, tabs and newlines take equally much off the front of the set-up and no currency sign stands directly before the result |
| CalcMarks.ResultIsMarked | pkg/calc/calc.go:150-160 | under the same two conditions any inner result's operand is marked, whatever results stand before it |
| CalcMarks.PlaceOfResult | pkg/calc/calc.go:93-98 | the place the outer calculation is told is off by exactly the white space that one of the two trimmings leaves |
| CalcMarks.OnlyPlaceTold | pkg/calc/calc.go:93-98 | where no other set-up gives a result, that is the only place told |
| CalcMarks.ReturnHidesMark | pkg/calc/calc.go:93-98 | a carriage return before the inner set-up hides the mark |
| CalcMarks.WrongOperandMarked | pkg/calc/calc.go:93-98 | after any opening of two bytes that only the first trimming takes, a one-digit result plus 2: the 2 that was typed is marked as derived, the result is not |
| CalcMarks.OpeningsThatSkew | pkg/calc/calc.go:93-98 | two carriage returns, U+0085 and a no-break space are such openings |
| CalcMarks.CurrencyHidesMark | pkg/calc/calc.go:261-306 | a currency sign before the inner set-up hides the mark: the operand begins at the sign, the place told is that of the digits |
| CalcFails.FailedInnerFailsOuter | pkg/calc/calc.go:73-74 | on text: an inner set-up that fails with balanced parentheses, or cannot be tokenized, makes the one around it fail, whatever surrounds it |
| CalcFails.MovedEvaluates | pkg/calc/calc.go:478-495 | an expression's value does not depend on where in a text it stands |
| TocAssemble.AssembleHierarchy | pkg/ingest/toc_builder.go:977-1034 | the forest stored in the result's slices lists exactly the entries with a title, in order, the i-th at the smaller of its dotted depth and one more than the depth before it |
| TocAssemble.ListingDeterminesForest | pkg/ingest/toc_builder.go:972-976 | the order and depths of the nodes determine the forest, so the one assembled is the only one |
| TocAssemble.AddEntry | pkg/ingest/toc_builder.go:1013-1032 | one entry goes under the last node of a smaller depth without disturbing any node already placed, though appends may move slices |
| TocAssemble.Append | pkg/ingest/toc_builder.go:1024-1031 | Go's append: in place when there is room, and otherwise into a new array with everything copied |
| TocAssemble.PopTo | pkg/ingest/toc_builder.go:1019-1023 | popping the pointer stack leaves the forest as it is |
| TocAssemble.ParsePhysicalIndex | pkg/ingest/toc_builder.go:954-970 | the page in the tag, and zero for anything not written so |
| TocAssemble.TagReadsBack | pkg/ingest/toc_builder.go:954-970 | the tag printed for a page gives that page back, whatever white space is around it |
| TocAssemble.OnlyTagsAreRead | pkg/ingest/toc_builder.go:954-970 | a positive page is only ever read from decimal digits in such a tag |
| TocAssemble.ItemsAre | pkg/ingest/toc_builder.go:983-998 | answers are read one by one in order: those without a title dropped, the others with numbering and title trimmed and the page in their tag |
| TocAssemble.DotsAddDepth | pkg/ingest/toc_builder.go:1040-1045 | numberings joined by a dot are as deep as both together, one without dots is one deep |
| TocAssemble.NestedSays | pkg/ingest/toc_builder.go:1003-1038 | an entry is as deep as its numbering says or one below the entry before it, whichever is less deep, and the first is at the top |
| TocOrder.OutOfOrder | pkg/ingest/toc_builder.go:1126-1161 | clearing the siblings returned puts the rest in order, and no way of putting them in order clears fewer |
| TocOrder.KeepLongest | pkg/ingest/toc_builder.go:1136-1153 | the tables hold, for every placed sibling, the longest non-decreasing run that ends there, and the run kept is a longest one of all |
| TocOrder.LongestRunIsFewest | pkg/ingest/toc_builder.go:1123-1125 | keeping a longest run is the same as clearing the fewest |
| TocRepair.RepairStarts | pkg/ingest/toc_builder.go:1087-1121 | the forest after is the forest before repaired level by level, and the count returned is of the starts that went |
| TocRepair.RepairedIsClean | pkg/ingest/toc_builder.go:1073-1082 | after a repair no placed node is on a contents page, before what holds it, or before an earlier placed sibling |
| TocRepair.NotBeforeAncestors | pkg/ingest/toc_builder.go:1077-1078 | nor before any placed ancestor, at any depth |
| TocRepair.SecondRepairClearsNothing | pkg/ingest/toc_builder.go:1087-1121 | a second repair changes nothing |
| TocPages.SensibleStays | pkg/ingest/toc_builder.go:1073-1121 | where no start is on a contents page, strictly before the nearest placed section's around it, or strictly before an earlier sibling's, a repair changes nothing |
| TocPages.RepairedIsSensible | pkg/ingest/toc_builder.go:1073-1121 | and a repair leaves contents of which that is true |
| TocPages.ClearedWithReason | pkg/ingest/toc_builder.go:1092-1110 | every start is kept with its end, or cleared with it because it is on a contents page, strictly before the page of the nearest section around it that keeps one, or against a sibling that keeps its own |
| TocEndPages.InheritParentStarts | pkg/ingest/toc_builder.go:1168-1184 | every unplaced container takes the smallest start among its children, from the deepest up, and nothing else changes |
| TocEndPages.DeriveEndPagesIn | pkg/ingest/toc_builder.go:1186-1241 | the pass in place writes the ends that the definition on values gives |
| TocEndPages.DeriveEndPages | pkg/ingest/toc_builder.go:1068-1071 | both passes one after the other |
| TocPages.InheritedStart | pkg/ingest/toc_builder.go:1168-1184 | a section without a page takes the smallest that its subsections have once they have inherited theirs; nothing else changes |
| TocPages.SectionEnd | pkg/ingest/toc_builder.go:1188-1240 | a placed section ends on the page before the next sibling that starts on its page or later, on its own page if that starts there too, at the ceiling or its own page if there is none, or where the furthest subsection ends; what it holds is derived under its own end |
| TocPages.UnplacedSectionEnd | pkg/ingest/toc_builder.go:1224-1240 | a section without a page keeps its end or takes the furthest of its subsections', which are derived under it or the ceiling |
| TocSpans.DerivedContents | pkg/ingest/toc_builder.go:1063-1071 | start <= end <= last page, children end within their parent, the top level covers every page from its first start to the last, and no level leaves a gap |
| TocSpans.DerivedSpans | pkg/ingest/toc_builder.go:1186-1241 | spans are well formed, nested and inside the document, whatever the order of the siblings |
| TocSpans.NoGaps | pkg/ingest/toc_builder.go:1194-1226 | a sibling list in order covers every page from its first start to its ceiling and on to the furthest end in it |
| TocSpans.SiblingsShareAtMostOnePage | pkg/ingest/toc_builder.go:1194-1226 | when starts never go backwards in reading order, a section ends no later than the first page of any later sibling |
| TocPages.SharedPage | pkg/ingest/toc_builder.go:1194-1226 | when starts never go backwards in reading order, a section reaches a later sibling's first page if and only if something in it starts there |
| TocBatch.BatchByTokens | pkg/ingest/toc_judge.go:340-368 | the batches concatenate to the pages that fit alone, in order, each is non-empty and within budget, and no such grouping has fewer |
| TocBatch.RequestCosts | pkg/ingest/toc_judge.go:350-362 | a request costs its pages' tokens and 96 for each |
| TocBatch.FittingIs | pkg/ingest/toc_judge.go:351-356 | the pages asked about are, in order, those of at most 24000 with their 96 |
| TocDedup.DedupEntries | pkg/ingest/toc_extract_judge.go:202-236 | exactly the first of each title and page, less the fragments |
| TocDedup.DropFragments | pkg/ingest/toc_extract_judge.go:216-235 | the second pass, overwriting what it scans, leaves what the filter on the original list would |
| TocDedup.OverwritingHidesNothing | pkg/ingest/toc_extract_judge.go:216-235 | at every turn the half-overwritten list finds an extension of an entry exactly when the original does |
| TocDedup.DedupLosesNothing | pkg/ingest/toc_extract_judge.go:199-201 | every entry is left itself, repeats another, or is spelled out further by one that is left |
| TocDedup.DedupKeeps | pkg/ingest/toc_extract_judge.go:202-236 | what is kept are, in order, the entries that come first with their normalised title and printed page, or are containers, less those without a printed page whose title another such entry's goes on from |
| TocCalibrateWalk.CalibrateFromPrinted | pkg/ingest/toc_extract_judge.go:447-517 | tree and count after the two walks are those of the definition on values |
| TocCalibrateWalk.CalibrationPlaces | pkg/ingest/toc_extract_judge.go:447-517 | where at least two leaves have both a page and a printed one, exactly the leaves without a page whose printed page plus the offset is a page of the document get that page, nothing else changes, and the count is of them; where fewer have, nothing changes |
| TocCalibrateWalk.OffsetIsMiddle | pkg/ingest/toc_extract_judge.go:482-483 | the offset is the middle of page minus printed page, in rising order, over the leaves that have both |
| TocCalibrateWalk.AgreedOffsetPlacesTheRest | pkg/ingest/toc_extract_judge.go:441-446 | when most of at least two such leaves agree on a difference, that is the offset |
| TocCalibrate.KeySays | pkg/ingest/toc_extract_judge.go:461-465 | a leaf's key is its title's slug, with a number after it if that was a key before: how often |
| TocCalibrate.MajorityIsMedian | pkg/ingest/toc_extract_judge.go:482-483 | an offset that more than half agree on is the median |
| TocCalibrate.WalkPlacesLeaves | pkg/ingest/toc_extract_judge.go:488-515 | the second walk, keying leaves as it meets them, places the leaves by the keys of the first and leaves containers alone |
| Persist.Planner.Walk | pkg/ingest/ingest.go:918-955 | the walk appends the pre-order plan of the sections and draws one id for each |
| Persist.Planner.PlanSection | pkg/ingest/ingest.go:921-952 | one section's row, then all it holds |
| Persist.ParentsComeFirst | pkg/ingest/ingest.go:885-886 | every planned row that has a parent comes after it, one level deeper |
| Persist.PlanNumbered | pkg/ingest/ingest.go:921-952 | the rows carry the ids in the order they were drawn, each once |
| Persist.RowsAreSections | pkg/ingest/ingest.go:921-952 | every section has one row, in reading order, with its cleaned title and text, the size of that, its pages, and a reference to stored text exactly if that is more than white space |
| Sections.PlanIsWritten | pkg/db/sections.go:88-136 | the batch violates no foreign key and adds exactly the planned rows |
| Sections.BatchIsWritten | pkg/db/sections.go:116-135 | any batch that goes in keeps the ids distinct and every parent there, writes each of its rows as last given and no other, and leaves each id under the document it first had |
| Sections.BatchGoesInIff | pkg/db/sections.go:88-114 | a batch goes in exactly when every row is top-level, its own parent, or under a row of the table or one before it in the batch; otherwise none of it does |
| Sections.ColumnsComeBack | pkg/db/sections.go:138-160 | a row read back is the row written, but for pages that are none |
| Sections.ScanOfWritten | pkg/db/sections.go:372-404 | the rows of a document are those written for it |
| Sections.ListedSiblings | pkg/db/sections.go:388 | however ties in depth and ordinal are broken, the rows under one parent come in their order |
| Sections.SiblingsListOneWay | pkg/db/sections.go:388 | there is only one order siblings can be listed in |
| LoadTree.BuildTree | pkg/db/sections.go:463-529 | one object for each row, each with the children whose rows name it in the order listed; no, one or many top-level sections give no root, that root or a made-up one |
| LoadTree.LoadPersisted | pkg/db/sections.go:463-529 | what was persisted is what is loaded: every section once, under its own parent, in its own place, with its columns, for no, one or many top-level sections |
| LoadTree.SectionsRestored | pkg/db/sections.go:463-529 | for every section list anywhere in the plan, memory holds each section with all it holds |
| LoadTree.ListedAreKeyed | pkg/db/sections.go:463-485 | the rows listed have distinct ids |
| LoadTree.ParentsListedFirst | pkg/db/sections.go:388 | in every listing of a written tree each section but a top-level one comes after its parent, which is one level up |
| Ingest.AtMostOneRow | pkg/db/documents.go:45-49 | in every interleaving at most one row is under an org's key, and its source is in the store |
| Ingest.AcceptedNamesTheRow | internal/handler/documents.go:208-227 | every 202 names an existing document of the same org and key; two requests under one key are given the same |
| Ingest.RowsStay | internal/handler/documents.go:340-350 | a document given early is the one given late |
| Ingest.AtMostOneJob | internal/handler/documents.go:380-388 | at most one job is enqueued for a key, for a document that exists |
| Ingest.WhenAllAreDone | internal/handler/documents.go:351-369 | once all requests under a key are answered and none of their calls reported an error other than the conflict, one document has the only row, the only source object and the only job, or none was well formed |
| Ingest.NoErrorNo500 | internal/handler/documents.go:351-369 | a request answered 500 made a call that reported an error other than the conflict: the loser of the race always finds the winner's row |
| Ingest.RefusedOnReading | internal/handler/documents.go:228-311 | a request is answered 400 if and only if reading its own body did not go well, whatever its key |
| Ingest.AllWellIsAccepted | internal/handler/documents.go:208-393 | in every schedule in which all goes well, a request that is answered is accepted |
| Ingest.SixStepsAnswer | internal/handler/documents.go:202-393 | six steps of its own answer any request, whatever the others do |
| Ingest.AloneIsIngested | internal/handler/documents.go:215-393 | a request without a key, or under a key no other has, is answered 202 after five steps that go well, with its own document: its row, its source and one job, whatever the others do |
| Ingest.FaultsAreReported | internal/handler/documents.go:208-388 | what counts as a request's error is exactly that one of its calls reported one; a conflict is none |
| Ingest.ObjectsAreStored | internal/handler/documents.go:317-358 | in every schedule a document's source is in the store if and only if its own request's storing took effect and no removal by it did |
| Ingest.RowsAreInserts | internal/handler/documents.go:340-350 | in every schedule a document has a row if and only if its own request's insert took effect, even one that reported an error, with no row under the same organisation and key in its way |
| Ingest.JobsAreOfInserters | internal/handler/documents.go:380-388 | in every schedule a document has a job if and only if the request that inserted it came to enqueue one and that call took effect |
| Ingest.JobsOfAnswered | internal/handler/documents.go:380-393 | where no call reports an error after taking effect, those are the documents whose own request was answered 202 |
| Ingest.AcceptedWithoutJob | internal/handler/documents.go:380-388 | a schedule in which a 202 names a document without a job |
| Ingest.RunInvariant | internal/handler/documents.go:202-393 | what every step of every request keeps |
| StageFacts.CallsStayWithinCaps | pkg/ingest/ingest.go:366-380 | in every interleaving calls in flight never exceed a stage's cap nor the shared one |
| StageFacts.PipelineCaps | pkg/ingest/ingest.go:283-325 | the caps are as set, or 4, 4 and 12 when set to zero or less |
| StageFacts.CalledAtMostOnce | pkg/ingest/ingest.go:1032-1059 | no section is called for twice in a stage, and only those that lack its result |
| StageFacts.ChildrenFirst | pkg/ingest/ingest.go:1046-1047 | before a section's summary is even waited for, every child's is done |
| StageFacts.CallsGoUp | pkg/ingest/ingest.go:1046-1133 | on record a child's summary call always comes before its parent's |
| StageFacts.OutcomeIsTheCalls | pkg/ingest/ingest.go:1083-1111 | in every run a worker came to a written result exactly when its call returned without an error, and to a failure exactly when it returned with one |
| StageFacts.NeverDeadlocks | pkg/ingest/ingest.go:1048-1134 | until both stages are finished some worker, or the next layer, can move |
| StageFacts.PipelineNeverDeadlocks | pkg/ingest/ingest.go:283-325 | so for every setting of the caps, negative ones included |
| StageFacts.RunsEnd | pkg/ingest/ingest.go:725-743 | a run has a bounded number of real steps |
| StageFacts.AllWorkIsDone | pkg/ingest/hyde.go:57-108 | when nothing is cancelled and both stages have finished, every section that lacked a result had its call |
| StageFacts.NoSlotsNoEnd | pkg/ingest/ingest.go:1054-1065 | with a summary cap of zero, which the defaults rule out, a stage with work never ends |
| Lru.LRU.constructor | pkg/cache/cache.go:102-111 | empty, with the given capacity or 1024 |
| Lru.LRU.Get | pkg/cache/cache.go:115-137 | map and list move as the recency list does: promoted and counted, or dropped when expired, or missed |
| Lru.LRU.Set | pkg/cache/cache.go:141-168 | renewed in front, or added in front after the last ones made room |
| Lru.LRU.Delete | pkg/cache/cache.go:171-177 | the key gone and counted if it was there |
| Lru.LRU.Clear | pkg/cache/cache.go:188-193 | nothing left, counters as they were |
| Lru.LRU.EvictOldest | pkg/cache/cache.go:208-214 | the last of the list goes |
| Lru.LRU.RemoveElement | pkg/cache/cache.go:216-221 | one entry out of list and map together |
| LruRuns.CountersBalance | pkg/cache/cache.go:196-205 | over every run hits and misses are the lookups, and inserts are the entries held, evicted or cleared |
| LruRuns.HitsAreFound | pkg/cache/cache.go:115-137 | over every run hits are the lookups that found an entry whose time was not up, and misses the others |
| LruRuns.HitIsLastWritten | pkg/cache/cache.go:113-137 | a hit gives the value last set under that key, not deleted or cleared since, before its time was up |
| LruRuns.SetLosesTheOldest | pkg/cache/cache.go:141-168 | Set loses, for a new key, exactly the entries beyond the most recent maxEntries - 1, and for a known key none, whatever their expiry |
| LruRuns.SetDropsNoneForExpiry | pkg/cache/cache.go:83-85 | after Set no other entry is expired if and only if none was among those it keeps |
| LruRuns.SetKeepsTheExpired | pkg/cache/cache.go:83-85 | three calls from an empty cache of two: the third Set evicts a live entry and keeps an expired one |
| LruRuns.LostOnlyToRecentKeys | pkg/cache/cache.go:81-85 | after its last touch an entry is lost only once maxEntries other keys were touched, and when nothing is taken out meanwhile exactly then |
| LruRuns.RecentValueIsFound | pkg/cache/cache.go:113-168 | a value set, or found, is found again before its time is up if fewer than maxEntries other keys were touched since |
| Limiter.TokenBucket.Allow | internal/middleware/ratelimit.go:51-70 | the bucket's tokens and time, and the answer, as the whole-token refill says |
| Limiter.BucketStore.Get | internal/middleware/ratelimit_principal.go:64-79 | the principal's bucket, full if new |
| Limiter.BucketStore.Request | internal/middleware/ratelimit_principal.go:33-52 | one request: look-up and decision as one step, other principals untouched |
| Limiter.BucketStore.Reap | internal/middleware/ratelimit_principal.go:84-95 | exactly the buckets idle for more than ten minutes go |
| LimiterRuns.ReapingIsUnobservable | internal/middleware/ratelimit_principal.go:29-31 | no request is ever answered differently because idle buckets were reaped |
| LimiterRuns.AdmissionsAreBounded | internal/middleware/ratelimit.go:51-70 | in any window of T seconds at most rpm + floor(rpm T / 60) requests of one principal are admitted, with the reaper at work |
| LimiterRuns.BurstIsAdmitted | internal/middleware/ratelimit_principal.go:68-76 | the bound is met: rpm requests at one instant are all admitted |
| LimiterRuns.EagerPrincipalStarves | internal/middleware/ratelimit.go:55-69 | an empty bucket refuses every one of a series of requests if and only if each comes sooner after the one before it than one token takes to earn |
| LimiterRuns.StarvedInARun | internal/middleware/ratelimit.go:55-69 | the same in every run, reaper and other principals included, from any point where the principal's bucket is empty |
| LimiterRuns.StarvedAfterBurst | internal/middleware/ratelimit_principal.go:64-95 | and from no buckets at all, after the principal's first rpm requests: so no lower bound on admissions holds |
| LimiterRuns.WindowBudget | internal/middleware/ratelimit.go:57-70 | what was admitted in a window and is still in the bucket was there at its start or earned in it |

## Left out

- Rounding of float64: `F` and `Arith` stand for any arithmetic in the calculator; the limiter's seconds are exact
  reals.
- How ParseFloat, FormatFloat, Format and error messages spell things: parameters (`Reader`, `Rules`). What is used of
  them is stated where it is used: an inner result is spelled as one number of the grammar, which FormatFloat's form
  is, and is read back as the value n says.
- Regular expression syntax: the one pattern the code has is written out, as the bytes its alternatives take in their
  order and as a predicate on whole texts.
- Trace and the evidence it searches.
- Integer overflow in parsePhysicalIndex and in page arithmetic.
- How titles are normalised and keyed: `norm` and `slug` are parameters. The string key of dedupEntries is modelled as
  the pair it spells, which its last bar separates. Keys of equal titles may still repeat, so nothing is claimed of
  their uniqueness.
- Slices shared between nodes: `Separate` says that no two nodes of a contents tree have the same pages in memory, as
  Go's nested slices of values have it.
- TocSpans.DerivedContents: order among siblings after inheritance is a hypothesis, because repairStarts does not
  order containers that inherit their page later.
- stampNodeIDs, splitting of leaves, page resolution, and every judgement or answer of a language model.
- The section texts written to storage beside the rows, and columns that persistTree leaves empty.
- Retries of persistTree, which draw new ids.
- UUIDs, cleaning of text, and token estimates: parameters; ids are assumed to be drawn once.
- Deleting documents, and the worker that takes jobs and changes a row's status.
- The handler as straight-line code: it is the steps of a state machine, in the order the code takes them, since it is
  the interleaving that matters. Whether a request is well formed is an outcome of its reading step.
- What the prompts of the stages hold (a summary's names the children's, which are done by then), and whether a call
  that returned well has anything to store.
- The foreign key from a section's row to its document's.
- Retries and timeouts inside one call of a language model; such a call ends with a result or an error.
- The shared LLM slots taken by other documents at the same time.
- Locks in the cache and limiter: each method is one step. A bucket reaped between a request's look-up and its
  decision is not covered.
- Real time: clocks are parameters, taken never to go back in the limiter's runs.
- HTTP, configuration, metrics and tracing.
