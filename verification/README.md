# Proofs about the Cerid gates, repairs and metrics

A Dafny model of the repository's self-contained algorithms, with proofs of what they are for. Each
`.dfy` file is one module. Loops and mutated objects of the scripts are methods and classes, proved
against functions; the promises are lemmas about those functions.

| modules | what they model |
|---|---|
| `WebLexer`, `WebLexerLaws`, `WebGrammar`, `WebPlaceholders`, `WebOrigins`, `WebSlash` | the TypeScript scan of the web reachability gate: comments, strings, the side table of literals, regex literals, nested template interpolations; the scan against a grammar of what it reads; where its output comes from; when a slash opens a regex |
| `WebImports`, `WebImportLaws`, `WebSyntax`, `WebGate`, `WebResolve`, `Graphs` | import extraction from the sanitised text and the five forms of import syntax, specifier resolution, the reachability walk, the allowlist and the verdict |
| `CiTokens`, `CiExpr`, `CiParser`, `CiGrammar`, `CiLayout`, `CiErrors`, `CiGate`, `CiMeaning` | the workflow-expression engine of the CI gate: tokenizer, evaluating parser, simulated context, what its texts mean, which part raises an error, and the area-filter check |
| `TaintFlow` | rule TA005: taint from a mock alias, to a fixed point |
| `SpreadObjects` | recursive resolution of spread objects in the key contract |
| `MojibakeRepair`, `MojibakeNames` | the repair of wrongly decoded entity names: plan, renames, merges; what each entry does and the names nodes end with |
| `ChromaScan`, `SourceBackfill`, `BackfillRuns`, `Sums` | the paged metadata scan and the source-node backfill: plan, apply, bounded runs, runs with failing links |
| `SparseVectors`, `Splade`, `Reals` | sparse pooling, cosine, and the SPLADE weights with their top-k cut |
| `LicenseText`, `LicenseGate` | the licence verdict over alternatives and conjuncts |
| `FetchRatchet` | the shrink-only baseline: its file, its check, its history |
| `ClipboardDaemon` | de-duplication of clipboard ingests over timed runs |
| `Percentile` | the nearest-rank p95 rule |
| `Text` | characters, `str.strip`, decimal numerals |

## How the code differs from its documentation

The model follows the code. Where a promise is false of it, the proofs give the exact condition.

- A slash is documented to open a regex literal after certain keywords. The script looks for the
  keyword in sixteen chunks of output, so a keyword far back is missed, and the end of a longer word
  can be taken for one. The rule holds exactly when the window shows enough of the word
  (`WebSlash.RegexAsPromised`); `WebSlash.RegexMissed` and `WebSlash.RegexInvented` are inputs on which
  it fails either way.
- Printing an expression and reading it back fails exactly when the text holds `${{`, for instance
  inside a string literal (`CiGate.TreeOfPrinted`, `CiGate.LiteralRefused`, `CiGate.OpenInString`).
- `startsWith` and `endsWith` with fewer than two arguments raise an `IndexError`, which is not the
  engine's own error and ends the script. That happens exactly when such a call comes up in the
  order of evaluation and everything before it has a value (`CiErrors.CrashesExactly`,
  `CiGate.TextCrashes`, `CiGate.ShortExample`); the area-filter check then ends exactly when no
  condition before it is credited (`CiGate.CheckAreaFilter`).
- A merge of the mojibake repair passes no survivor name, so the survivor's readable name is
  overwritten by its canonical id exactly when the id is longer (`MojibakeRepair.SurvivorName`,
  `MojibakeRepair.SurvivorNameExample`).
- A repaired entity ends under the canonical id its plan entry promises unless an entry moves it to
  the id of a node whose own entry comes later and moves that node
  (`MojibakeRepair.RepairedUnlessDetour`, `MojibakeRepair.DetourExample`).
- The dry run of the backfill projects the counters that apply sets exactly when no edge of the graph
  ends in a node without an id (`SourceBackfill.ProjectionExact`, `SourceBackfill.ProjectionExample`).
- A second run of the backfill plans nothing new only if no link failed in the first: exactly the
  failed edges are planned again (`SourceBackfill.FailedRemain`). Unlimited runs finish once every
  link has succeeded in one of them; limited runs whose first edges keep failing never get past
  those (`BackfillRuns.FailuresConverge`, `BackfillRuns.LimitedStarve`).
- An alternative more is meant to relax a licence verdict. It turns allowed into denied exactly when
  it is denied itself and all before it was UNKNOWN or blank, or when nothing at all is spelled out
  and the denylist hits the whole (`LicenseGate.AddedAlternative`, `LicenseGate.AddedExample`).
- A licence string that spells out no alternative, such as ";", carries no usable signal, yet it is
  never reported as unknown, and is denied only if the denylist hits it as a whole; a blank one is
  neither (`LicenseGate.UnknownMeaning`, `LicenseGate.NothingSpelled`, `LicenseGate.BlankPasses`).
  `; UNKNOWN` is neutral exactly for the other strings (`LicenseGate.UnknownAppended`).
- An added conjunct tightens the verdict except when it is added to an UNKNOWN alternative, which then
  gains a say it did not have (`LicenseGate.ConjunctBeside`, `LicenseGate.ConjunctExample`).
- A baseline file reads back as written exactly when no path has a line break or spaces at its ends;
  the ratchet holds without that condition (`FetchRatchet.RoundTrip`, `FetchRatchet.BrokenPathExample`,
  `FetchRatchet.NeverClimbs`).
- Marking a clipboard digest is two Redis calls. If the set runs out between them the mark is lost,
  and so is every older one. Content not ingested since is ingested again exactly when that happened,
  or a week passed without an ingest (`ClipboardDaemon.RepeatedExactly`,
  `ClipboardDaemon.TornExample`).
- TA005 reports each tautology under one call that flows into it; which one depends on the order of
  the walk (`TaintFlow.OrderExample`). The tainted names do not (`TaintFlow.TaintOrderFree`). In the
  same way the order of alternatives decides the family a denial is reported under
  (`LicenseGate.FamilyExample`), and not the denial.

## Model

| member | source | states |
|---|---|---|
| WebLexer.PrevSignificant | scripts/lint-web-reachability.py:117-122 | the last character of the output that is not white space, for every chunking of it |
| WebSlash.PrevWordShown | scripts/lint-web-reachability.py:124-127 | the word found before a slash is what sixteen characters show of the identifier and the blanks that end the output |
| WebSlash.RegexAsPromised | scripts/lint-web-reachability.py:90-97 | the rule agrees with the documented one, which looks at all of the output, exactly when the identifier and the blanks behind it fit in sixteen characters or what is shown of it tells the same |
| WebSlash.RegexMissed | scripts/lint-web-reachability.py:124-127 | eleven blanks after `return` a slash is taken for a division |
| WebSlash.RegexInvented | scripts/lint-web-reachability.py:124-127 | on an indented line after `begin` a slash is taken for a regex |
| WebLexer.ConsumeTemplate | scripts/lint-web-reachability.py:129-142 | the loop stops where the template scan does: at the backtick, at an interpolation, or at the end |
| WebLexer.ConsumeLiteral | scripts/lint-web-reachability.py:156-169 | the loop reads the literal's body with escapes undone and stops at its quote, newline or end |
| WebLexer.ConsumeRegex | scripts/lint-web-reachability.py:181-197 | the loop ends where the regex scan does, classes and flags included |
| WebLexer.Scanner.Slash | scripts/lint-web-reachability.py:145-201 | the new state after a comment, regex or division is the one the step function gives |
| WebLexer.Scanner.Turn | scripts/lint-web-reachability.py:144-215 | one turn changes output, side table and depths as the step function says, and moves forward |
| WebLexer.Sanitize | scripts/lint-web-reachability.py:99-216 | the scan terminates on every text with the output and side table of the state machine |
| WebGrammar.CodeRead | scripts/lint-web-reachability.py:144-216 | from any state, code built of plain text, nested braces, literals, comments, regexes, divisions and templates with code in their interpolations is read as its structure says: the output and literals of that structure are added, and the depths are those before |
| WebGrammar.FileRead | scripts/lint-web-reachability.py:99-216 | so for a whole file: the side table holds its literals in order, and the output is what the structure leaves |
| WebGrammar.InterpolationRead | scripts/lint-web-reachability.py:202-213 | the scan comes out of a template with the depths it came with, having added the literals of the code in its interpolation |
| WebGrammar.InterpolationEntered | scripts/lint-web-reachability.py:202-213 | inside an interpolation, behind code with its braces closed, is code position |
| WebGrammar.SkeletonDecides | scripts/lint-web-reachability.py:19-27 | texts that differ only in comments, regexes and the text parts of templates, at any depth, are scanned alike |
| WebGrammar.NestedExample | scripts/lint-web-reachability.py:202-213 | behind an object literal in an interpolation a string is still read |
| WebSlash.WordExactly | scripts/lint-web-reachability.py:124-127 | the word looked at is the whole identifier that ends the output |
| WebSlash.AfterMark | scripts/lint-web-reachability.py:86-97 | after a character that is not part of a word a slash opens a regex exactly behind twelve listed marks |
| WebSlash.AfterKeyword | scripts/lint-web-reachability.py:86-97 | after a word and white space that fit in the window, exactly behind thirteen listed words |
| WebPlaceholders.LexPlaced | scripts/lint-web-reachability.py:144-216 | every chunk of the output is plain or the placeholder of the next entry, one for each entry |
| WebPlaceholders.QuotesBelong | scripts/lint-web-reachability.py:99-216 | in every sanitised text the quotes are exactly the ends of disjoint placeholders, and the k-th carries index k |
| WebPlaceholders.QuoteOpens | scripts/lint-web-reachability.py:66-70 | a quote not after a NUL opens a placeholder, and the next quote closes the same one |
| WebImports.CaptureIsPlaceholder | scripts/lint-web-reachability.py:262-274 | whatever an import pattern captures is one whole placeholder of the side table |
| WebImports.MatchesApart | scripts/lint-web-reachability.py:262-274 | of two matches of one pattern over sanitised text the first ends, tail included, before the head of the second begins |
| WebImports.FindAll | scripts/lint-web-reachability.py:269-273 | searching on from the end of each match finds the captures of all matches when none begins inside another |
| WebImports.CollectImports | scripts/lint-web-reachability.py:262-274 | the specifiers collected are those of all matches of all patterns over the sanitised text, and every index looked up is in the table |
| WebLexerLaws.StepLocal | scripts/lint-web-reachability.py:144-214 | a turn looks at no character behind the one after its span |
| WebLexerLaws.LexFromVisit | scripts/lint-web-reachability.py:144-214 | the scan of a text is the scan of its rest from any state on the way |
| WebLexerLaws.VisitLocal | scripts/lint-web-reachability.py:144-214 | whether an offset is in code position depends only on the text before it and the character at it |
| WebLexerLaws.InertBody | scripts/lint-web-reachability.py:129-175 | the body of a line comment, block comment or plain template in code position changes neither output nor side table |
| WebOrigins.BlankOrCopied | scripts/lint-web-reachability.py:144-216 | every output character outside a placeholder is a blank or is copied from an offset in code position, where the output stood exactly there |
| WebOrigins.NextCopied | scripts/lint-web-reachability.py:144-216 | the next character, if neither white space nor in a placeholder, is copied from where the turn before it ended |
| WebOrigins.WordIsText | scripts/lint-web-reachability.py:66-70 | a stretch of output without white space or placeholders is a stretch of the text, all in code position: no word is pieced together across a comment |
| WebOrigins.CopiedInOrder | scripts/lint-web-reachability.py:144-216 | the copies keep the order of the text |
| WebOrigins.LetterIsCode | scripts/lint-web-reachability.py:66-70 | so a letter of the output, as in a keyword before a captured literal, is that letter in code position |
| WebOrigins.LiteralBody | scripts/lint-web-reachability.py:156-169 | changing the body of a string literal in code position, closed or cut short by a newline or the end of the text, changes its own table entry and nothing else |
| WebOrigins.RegexBody | scripts/lint-web-reachability.py:176-198 | changing a regex literal in code position changes nothing |
| WebImportLaws.ImportsExactly | scripts/lint-web-reachability.py:66-70 | the imports are exactly the bodies of string literals in code position whose surroundings in the output match a pattern |
| WebImportLaws.InertImports | scripts/lint-web-reachability.py:19-27 | comment and plain template bodies in code position change no import |
| WebImportLaws.RegexImports | scripts/lint-web-reachability.py:19-27 | nor do regex bodies |
| WebImportLaws.ImportFound | scripts/lint-web-reachability.py:71-83 | import syntax written in plain text in code position yields its specifier, escapes in the literal undone |
| WebSyntax.HeadExactly | scripts/lint-web-reachability.py:66-83 | the output before a literal matches exactly when it ends in the keyword of one of the five forms, with its parentheses and white space |
| WebSyntax.TailExactly | scripts/lint-web-reachability.py:74-82 | and so the output behind it |
| WebSyntax.ImportsAreWritten | scripts/lint-web-reachability.py:66-83 | the imports of a text are exactly the literals in code position with one of the five forms written around them |
| WebSyntax.FiveForms | scripts/lint-web-reachability.py:66-83 | the five forms as written before a literal, with any white space, match |
| WebSyntax.SyntaxFound | scripts/lint-web-reachability.py:66-83 | one of the forms written in plain text in code position imports its literal |
| WebSyntax.ImportInTemplate | scripts/lint-web-reachability.py:202-213 | an import inside an interpolation, behind any code with its braces closed, is found |
| WebResolve.ResolveExactly | scripts/lint-web-reachability.py:235-259 | a specifier resolves to the first module among the listed candidates for its base, and to nothing exactly when none is one |
| WebResolve.QueryIgnored | scripts/lint-web-reachability.py:237 | what follows a question mark makes no difference |
| WebResolve.AliasFree | scripts/lint-web-reachability.py:238-239 | an alias names the same module in every file |
| WebResolve.RelativeFree | scripts/lint-web-reachability.py:240-241 | a relative specifier depends on the importer's directory and not on the root |
| WebResolve.PackageNamesNone | scripts/lint-web-reachability.py:242-243 | a package name names no module |
| WebGate.PushTargets | scripts/lint-web-reachability.py:303-307 | exactly the unseen import targets join the stack, and none is missed |
| WebGate.Walk | scripts/lint-web-reachability.py:296-308 | the walk terminates, duplicates on the stack included, with exactly the reachable modules |
| WebGate.LineExactly | scripts/lint-web-reachability.py:311-329 | a line of the allowlist says nothing exactly when blank or a comment, and has no reason exactly when it has no mark |
| WebGate.EntryExactly | scripts/lint-web-reachability.py:311-329 | else it is an entry, with path and reason before and behind the first mark |
| WebGate.LoadAllowlist | scripts/lint-web-reachability.py:311-329 | exits on an entry without a reason, else the entries are exactly the listed paths |
| WebGate.Check | scripts/lint-web-reachability.py:340-392 | passes exactly when every module is reachable or allowlisted; violations and, passing or not, stale entries are exactly the others |
| WebGate.FewerEdges | scripts/lint-web-reachability.py:296-308 | removing edges or roots never makes more reachable |
| WebGate.InertEdit | scripts/lint-web-reachability.py:19-27 | rewriting a comment or plain template body of any file leaves the reachable set alone |
| WebGate.ImportReaches | scripts/lint-web-reachability.py:235-259 | whatever a reachable file imports and resolves is reachable |
| WebGate.ReachedByLiteral | scripts/lint-web-reachability.py:19-27 | a reachable module that is no root is imported by a reachable file, through a literal in code position with import syntax around it |
| CiTokens.Tokenize | scripts/lint-ci-gate-shape.py:129-152 | the loop returns the tokens the regex takes one after another, or the expression error |
| CiLayout.TokenMatches | scripts/lint-ci-gate-shape.py:129-152 | a token is taken whole whenever what follows cannot continue it |
| CiLayout.TokensOfLayout | scripts/lint-ci-gate-shape.py:129-152 | tokens written with any white space between them, or none where they may touch, are read back |
| CiLayout.QuotedReadsBack | scripts/lint-ci-gate-shape.py:217-218 | quoting a string with its quotes doubled is one literal whose value is the string |
| CiParser.Parser.OrExpr | scripts/lint-ci-gate-shape.py:177-182 | evaluates while parsing to the meaning of what the grammar reads: the value or error of its tree with both sides evaluated, or the first error of the parts read before the syntax error |
| CiParser.Parser.AndExpr | scripts/lint-ci-gate-shape.py:184-189 | the same for conjunction |
| CiParser.Parser.CmpExpr | scripts/lint-ci-gate-shape.py:191-198 | the same for at most one comparison |
| CiParser.Parser.PrimaryExpr | scripts/lint-ci-gate-shape.py:205-234 | the same for parentheses, literals, paths and calls |
| CiParser.Parser.ParseWhole | scripts/lint-ci-gate-shape.py:171-175 | the same for the whole token list: exactly the value or error, with a tree and without |
| CiExpr.GroupMeaning | scripts/lint-ci-gate-shape.py:155-234 | the parentheses that precedence needs do not change a tree's value or error |
| CiGrammar.ParseOfYield | scripts/lint-ci-gate-shape.py:155-234 | the tokens of any grouped tree parse to that tree, every token consumed |
| CiGrammar.YieldOfParse | scripts/lint-ci-gate-shape.py:155-234 | conversely, a token list that parses is the printing of its tree |
| CiGate.TreeOfPrinted | scripts/lint-ci-gate-shape.py:368-375 | printing any tree, with any spacing, bare or wrapped, reads back as the tree, refused exactly when the text holds an opening mark |
| CiGate.MeaningOfPrinted | scripts/lint-ci-gate-shape.py:368-375 | so evaluating the text gives the tree's value or error, or the expression error when the text holds an opening mark |
| CiGate.GroupedReadsBack | scripts/lint-ci-gate-shape.py:368-375 | a tree that needs no parentheses prints without any and reads back as itself |
| CiGate.LiteralRefused | scripts/lint-ci-gate-shape.py:368-375 | a string whose literal holds the opening mark has a value, and its literal is refused |
| CiGate.OpenInString | scripts/lint-ci-gate-shape.py:368-375 | the string "${{" is one |
| CiGate.Evaluate | scripts/lint-ci-gate-shape.py:368-375 | the truth of the text's value, or exactly the error it raises |
| CiGate.EvalIgnores | scripts/lint-ci-gate-shape.py:321-365 | noninterference: an expression that does not read an output has the same value or error for every value of it |
| CiErrors.CrashesExactly | scripts/lint-ci-gate-shape.py:205-278 | an expression ends in an IndexError exactly when, in evaluation order, a call of startsWith or endsWith with fewer than two arguments comes up after parts that all have values |
| CiGate.TextCrashes | scripts/lint-ci-gate-shape.py:368-375 | so for texts, those without a tree included; a text with a value in one context crashes in none |
| CiGate.ShortCrashes | scripts/lint-ci-gate-shape.py:274-277 | a call of startsWith on one string literal crashes in every context |
| CiGate.ShortExample | scripts/lint-ci-gate-shape.py:274-277 | for instance `startsWith('a')` |
| CiGate.Gates | scripts/lint-ci-gate-shape.py:531-536 | credits a condition exactly when it holds in one context and fails in the other; crashes exactly when it crashes in the first |
| CiGate.CheckAreaFilter | scripts/lint-ci-gate-shape.py:521-541 | ends in the crash exactly when some condition crashes and none before it is credited; otherwise true exactly when some condition holds with the area's output true and fails with it false |
| CiMeaning.EvaluatedTruth | scripts/lint-ci-gate-shape.py:281-291 | a condition holds unless its value is null, false, zero or empty; the string 'false' holds |
| CiMeaning.LogicMeaning | scripts/lint-ci-gate-shape.py:177-203 | what the texts of disjunctions, conjunctions and negations give, from the values of their operands |
| CiMeaning.StrictMeaning | scripts/lint-ci-gate-shape.py:177-198 | the first operand that fails decides the error |
| CiMeaning.StringsCompare | scripts/lint-ci-gate-shape.py:237-251 | two strings are equal when the same and ordered as in a dictionary |
| CiMeaning.NumbersCompare | scripts/lint-ci-gate-shape.py:237-251 | numbers compare as numbers, whole or not |
| CiMeaning.BoolsCompare | scripts/lint-ci-gate-shape.py:254-257 | a bool equals whatever holds as it does |
| CiMeaning.KindsCompare | scripts/lint-ci-gate-shape.py:237-257 | values of different kinds are unequal and have no order; null equals itself |
| CiMeaning.ListsCompare | scripts/lint-ci-gate-shape.py:237-251 | a list equals itself and is not before itself |
| CiMeaning.EqualText | scripts/lint-ci-gate-shape.py:237-241 | the text comparing two quoted strings, however spaced, is true exactly when they are the same, refused when it holds an opening mark |
| CiMeaning.NumberLiteral | scripts/lint-ci-gate-shape.py:219-220 | a decimal numeral, with or without a minus, is its number |
| CiMeaning.FractionLiteral | scripts/lint-ci-gate-shape.py:219-220 | and with a fraction the number with that decimal fraction |
| CiMeaning.PowerOfTen | scripts/lint-ci-gate-shape.py:219-220 | where each digit of the fraction is a tenth of the one before |
| CiMeaning.PathExactly | scripts/lint-ci-gate-shape.py:334-365 | a path has exactly the value listed for it, and any other is an error |
| CiMeaning.PathText | scripts/lint-ci-gate-shape.py:334-365 | so for its text |
| CiMeaning.LabelsIsPath | scripts/lint-ci-gate-shape.py:129-152 | the path of the labels, star included, is one path |
| CiMeaning.OutputIsPath | scripts/lint-ci-gate-shape.py:129-152 | and so is that of every output |
| CiMeaning.StatusCalls | scripts/lint-ci-gate-shape.py:260-266 | the four status functions |
| CiMeaning.StringCalls | scripts/lint-ci-gate-shape.py:267-277 | contains, startsWith and endsWith on two strings ask for an infix, prefix and suffix |
| CiMeaning.LabelCall | scripts/lint-ci-gate-shape.py:267-273 | contains on a list asks for a member |
| CiMeaning.UnknownCalls | scripts/lint-ci-gate-shape.py:260-278 | any other function, or contains with another number of arguments, is an error |
| CiMeaning.PlainFilter | scripts/lint-ci-gate-shape.py:521-541 | comparing an area's output with 'true' is credited and the negation is not, in every context |
| CiMeaning.FilterOfBoth | scripts/lint-ci-gate-shape.py:521-541 | when a conjunction or disjunction is credited, from its sides |
| CiGate.FilterMentions | scripts/lint-ci-gate-shape.py:521-541 | a credited condition reads its area's output, and its text says so |
| TaintFlow.Seed | scripts/lint-test-antipatterns.py:431-439 | the seeds are the names assigned from an alias call, each with such a call |
| TaintFlow.LastSeed | scripts/lint-test-antipatterns.py:431-439 | the seed of a name is the first call of the last assignment to it that makes any |
| TaintFlow.Propagate | scripts/lint-test-antipatterns.py:455-479 | one node adds its target exactly when a tainted name flows to it, with a justified origin |
| TaintFlow.Taint | scripts/lint-test-antipatterns.py:453-479 | the loop terminates; the names at exit are exactly the tainted ones, every origin is a seed call that flows there, and the origins are those of repeated passes in walk order |
| TaintFlow.TaintIsLeast | scripts/lint-test-antipatterns.py:450-479 | the tainted names are the least set that holds the seeds and is closed under assignment, append and extend |
| TaintFlow.TaintOrderFree | scripts/lint-test-antipatterns.py:453-479 | which names are tainted does not depend on the order or repetition of the walk (the recorded origins do) |
| TaintFlow.FirstAppended | scripts/lint-test-antipatterns.py:469-479 | of two mock calls whose results are appended to one list, the one appended first is reported |
| TaintFlow.OrderExample | scripts/lint-test-antipatterns.py:453-479 | the same nodes in two orders with different findings |
| TaintFlow.Visitor.CheckMockAliasAsserted | scripts/lint-test-antipatterns.py:408-500 | findings are calls some assertion looks at, one for each new line, and every assertion on a tainted name has one reported |
| SpreadObjects.ResolveLocalObject | scripts/lint-key-contract.py:554-608 | the recursive method returns what the resolution function gives |
| SpreadObjects.ResolvesExactly | scripts/lint-key-contract.py:554-608 | resolves exactly when every name reached by spreads is bound to a literal and no chain of spreads closes a cycle |
| SpreadObjects.ResolvedUnion | scripts/lint-key-contract.py:554-608 | the result is the union of the properties written on all names reached |
| SpreadObjects.BoundExactly | scripts/lint-key-contract.py:554-600 | a name is bound when it has an object literal, no other binding and no dot in it |
| SpreadObjects.CollectedExactly | scripts/lint-key-contract.py:576-600 | exactly the properties of its literals and of the assignments to it are collected, and the spreads of its literals |
| SpreadObjects.CollectedSplit | scripts/lint-key-contract.py:576-600 | in the order of the lines |
| SpreadObjects.OwnFirst | scripts/lint-key-contract.py:603-608 | the properties of a name come before those it spreads |
| SpreadObjects.SpreadsInOrder | scripts/lint-key-contract.py:603-608 | and those in the order of the spreads |
| MojibakeRepair.PlanRepairs | scripts/repair_mojibake_entities.py:116-152 | from distinct ids the plan is well formed: one entry for each affected node, the action decided by the ids |
| MojibakeRepair.PlannedForStore | scripts/repair_mojibake_entities.py:116-152 | what is planned from the records of a store is a plan for that store, to which the results on runs apply |
| MojibakeRepair.Graph.ApplyEntry | scripts/repair_mojibake_entities.py:180-209 | one entry moves the store to the next one and adds one to one count |
| MojibakeRepair.Graph.ApplyPlan | scripts/repair_mojibake_entities.py:175-210 | the loop is a run of the plan and its counts are the tallies of the outcomes |
| MojibakeRepair.RunKeeps | scripts/repair_mojibake_entities.py:14-24 | every step keeps ids distinct and each original entity represented by exactly one survivor with its mentions |
| MojibakeRepair.RunCounts | scripts/repair_mojibake_entities.py:175-210 | the number of nodes is the initial one minus the merges, and mention counts add up |
| MojibakeRepair.ActsOnItsOwn | scripts/repair_mojibake_entities.py:175-210 | each entry acts on the node it was planned for, whatever came before |
| MojibakeRepair.TalliesAddUp | scripts/repair_mojibake_entities.py:180-210 | the four counts sum to the length of the plan |
| MojibakeRepair.RepairedUnlessDetour | scripts/repair_mojibake_entities.py:14-24 | every repairable entity ends under its promised id exactly when the plan has no detour |
| MojibakeNames.TurnExactly | scripts/repair_mojibake_entities.py:175-210 | what each entry does to the node it was planned for, and that nothing else changes: nothing, the repaired name and identifier, or a merge |
| MojibakeNames.NameKept | scripts/repair_mojibake_entities.py:175-210 | a node whose entry is done keeps its identifier, and its name unless others are merged into it |
| MojibakeNames.RenamedName | scripts/repair_mojibake_entities.py:196-205 | a renamed entity ends with its repaired name and identifier, unless a later merge into it replaces a name shorter than the identifier |
| MojibakeNames.UnrepairedName | scripts/repair_mojibake_entities.py:175-210 | an unfixable entity, or one whose repair fails, ends as it was unless others are merged into it |
| MojibakeNames.PlannedEntry | scripts/repair_mojibake_entities.py:116-152 | an entry promises the fixed name of its record and the slug of that and the type |
| MojibakeNames.RecordPlanned | scripts/repair_mojibake_entities.py:131-136 | every record with a wrongly decoded name has an entry |
| MojibakeNames.CountsExactly | scripts/repair_mojibake_entities.py:175-210 | unfixable entries are counted whatever the store does, and errors are the faults on the others |
| MojibakeRepair.DetourExample | scripts/repair_mojibake_entities.py:116-152 | records and helpers from which the planner makes a plan with a detour, every run of which misplaces an entity |
| MojibakeRepair.SurvivorName | src/mcp/app/db/neo4j/entity.py:566-577 | a merge keeps the survivor's name exactly when its id is no longer than the name |
| MojibakeRepair.SurvivorNameExample | src/mcp/app/db/neo4j/entity.py:566-577 | a merge after which a node has its id for a name |
| ChromaScan.ScanMeaning | scripts/backfill_source_nodes.py:243-282 | for each artifact each field is the first non-empty one among its rows |
| ChromaScan.FirstIsFirst | scripts/backfill_source_nodes.py:243-282 | and no earlier row of that artifact has one |
| ChromaScan.ScanCollection | scripts/backfill_source_nodes.py:243-279 | each row is visited once, all of them or those before the first page that fails, which depends on the page size exactly as stated |
| ChromaScan.Scan | scripts/backfill_source_nodes.py:219-282 | the map is the collapse of the rows seen, collection by collection |
| ChromaScan.AllRowsSeen | scripts/backfill_source_nodes.py:219-282 | every row is seen exactly when no collection fails at a page that begins before its end |
| ChromaScan.PageSizeFree | scripts/backfill_source_nodes.py:243-279 | two page sizes see the same rows when no read fails, or fails where pages of both sizes begin |
| ChromaScan.PageSizeExample | scripts/backfill_source_nodes.py:243-279 | a failing read for which they do not |
| SourceBackfill.ListingUnique | scripts/backfill_source_nodes.py:391-396 | the sorted listing of a set of edges is unique |
| SourceBackfill.SortEdges | scripts/backfill_source_nodes.py:391-396 | lists exactly the edges in ascending order |
| SourceBackfill.Project | scripts/backfill_source_nodes.py:398-417 | for each source the number of linked artifacts and the sum of their chunks |
| SourceBackfill.CountNoSource | scripts/backfill_source_nodes.py:368-389 | the combo counts are exact and sum to the number of nodes without a source |
| SourceBackfill.Classify | scripts/backfill_source_nodes.py:368-389 | the three outputs are exactly the linkable, unresolvable and orphaned edges |
| SourceBackfill.BuildPlan | scripts/backfill_source_nodes.py:342-428 | what the plan creates is a cut of the sorted remaining edges, and its projection counts them |
| SourceBackfill.NodesPartition | scripts/backfill_source_nodes.py:368-389 | artifact nodes are the linkable, the unresolvable and those without a source |
| SourceBackfill.FatesExactly | scripts/backfill_source_nodes.py:368-389 | which edges are planned, unresolvable, orphaned and remaining, from the scan and the graph |
| SourceBackfill.NoSourceExactly | scripts/backfill_source_nodes.py:368-389 | which nodes have no source |
| SourceBackfill.ComboExactly | scripts/backfill_source_nodes.py:380-389 | they are grouped by first client source and first source type of their rows, with a placeholder for none |
| SourceBackfill.EdgeCounted | scripts/backfill_source_nodes.py:398-417 | one edge more counts one artifact and its chunks for its own source and nothing for another |
| SourceBackfill.NoEdgeCounted | scripts/backfill_source_nodes.py:398-417 | a source without edges counts nothing |
| SourceBackfill.RecomputeExactly | scripts/backfill_source_nodes.py:319-334 | the recompute sets the counters of exactly the sources with an edge |
| SourceBackfill.CutExactly | scripts/backfill_source_nodes.py:391-396 | a limit takes the first edges; none or a negative one takes all |
| SourceBackfill.ListingOrder | scripts/backfill_source_nodes.py:391-396 | the listing goes by artifact, then by source |
| SourceBackfill.Store.LinkAll | scripts/backfill_source_nodes.py:536-545 | a bad link stops no other: the graph gains exactly the edges whose link succeeds |
| SourceBackfill.Store.RecomputeCounters | scripts/backfill_source_nodes.py:319-334 | counters are set from the graph, sources without edges keeping theirs |
| SourceBackfill.Store.Run | scripts/backfill_source_nodes.py:536-545 | a dry run changes nothing; apply links the planned edges and recomputes |
| SourceBackfill.ProjectionExact | scripts/backfill_source_nodes.py:402-417 | projected counters equal the recompute after apply exactly when no edge ends in a node without an id |
| SourceBackfill.ProjectionExample | scripts/backfill_source_nodes.py:402-417 | a graph on which they differ |
| SourceBackfill.FailedRemain | scripts/backfill_source_nodes.py:536-545 | after an unlimited run exactly the edges remain whose link failed |
| SourceBackfill.SecondRun | scripts/backfill_source_nodes.py:42-56 | after one without failures a second run plans no edge and changes nothing |
| SourceBackfill.BoundedProgress | scripts/backfill_source_nodes.py:391-417 | after i runs of at most k edges the graph is the one with the first i*k edges of the listing |
| SourceBackfill.BoundedConverges | scripts/backfill_source_nodes.py:42-56 | nothing remains exactly when i*k reaches the number of edges, and then the graph is that of one unlimited run |
| BackfillRuns.ManyRuns | scripts/backfill_source_nodes.py:536-545 | any runs, whatever their limits and failing links, are one run that makes what they made and leaves the rest |
| BackfillRuns.FailuresConverge | scripts/backfill_source_nodes.py:42-56 | unlimited runs leave nothing exactly when each edge's link has succeeded once, and then the graph of one run without failures |
| BackfillRuns.LimitedStarve | scripts/backfill_source_nodes.py:75-78 | when the links of the first k edges keep failing, runs limited to k edges never make any |
| SparseVectors.AggregateDoc | scripts/bge_m3_spike.py:203-221 | exactly the unmasked ordinary tokens with a positive weight, each with its largest |
| SparseVectors.AggregateSparse | scripts/bge_m3_spike.py:186-222 | so for each document of the batch |
| SparseVectors.PoolsUnique | scripts/bge_m3_spike.py:186-222 | that determines the vector, and its weights are positive |
| SparseVectors.PoolsExactly | scripts/bge_m3_spike.py:203-221 | a token has a weight exactly when a position has it unmasked, not special and positive, and it is the largest of those |
| SparseVectors.DotInduction | scripts/bge_m3_spike.py:225-235 | an induction principle for the three sums of the cosine |
| SparseVectors.CauchySchwarz | scripts/bge_m3_spike.py:225-235 | the squared dot over shared tokens is at most the product of the squared norms |
| SparseVectors.CosineSymmetric | scripts/bge_m3_spike.py:225-235 | the cosine is symmetric |
| SparseVectors.CosineBounded | scripts/bge_m3_spike.py:225-235 | it lies between -1 and 1 |
| SparseVectors.CosinePositive | scripts/bge_m3_spike.py:225-235 | for positive weights it is positive exactly when a token is shared, and never negative |
| SparseVectors.CosineSelf | scripts/bge_m3_spike.py:225-235 | a vector of positive weights has cosine one with itself |
| Splade.MaxCellMeaning | scripts/cerid-sidecar.py:250-253 | the pooled value is the larger of zero and the largest logit the mask keeps |
| Splade.OnlyKeptMatter | scripts/cerid-sidecar.py:236-253 | the weights depend only on the logits at kept positions: not on masked ones, the order or repetition |
| Splade.PaddingIrrelevant | scripts/cerid-sidecar.py:236-253 | so the padding of a batch never changes them |
| Splade.WeightedFires | scripts/cerid-sidecar.py:250-258 | a term has a positive weight exactly when a kept position gives it a positive logit |
| Splade.Prune | scripts/cerid-sidecar.py:257-268 | as many terms as fit in top-k are kept, all positive, none left out weighing more than one kept |
| Splade.SpladeFromLogits | scripts/cerid-sidecar.py:236-269 | so for every row of the batch |
| Splade.OutputMeaning | scripts/cerid-sidecar.py:236-269 | each kept term weighs log1p of its largest kept logit, and a fired term is missing only when top-k others are kept |
| LicenseText.SplitJoined | scripts/lint-license-denylist.py:145-151 | cutting a joined string is gluing what its parts are cut into |
| LicenseText.TermsApart | scripts/lint-license-denylist.py:145-159 | a keyword between spaces separates the terms on either side |
| LicenseGate.WordStays | scripts/lint-license-denylist.py:145-159 | a word is cut at a keyword only when it is one |
| LicenseGate.UnknownInAnyCase | scripts/lint-license-denylist.py:175-178 | UNKNOWN counts in any case |
| LicenseGate.SplitAlternatives | scripts/lint-license-denylist.py:134-151 | the loop returns the alternatives spelled out, or the whole string when there are none |
| LicenseGate.UnitDenied | scripts/lint-license-denylist.py:154-163 | the family of the first conjunct on the denylist |
| LicenseGate.Evaluate | scripts/lint-license-denylist.py:166-185 | denied exactly when every known alternative has a conjunct on the denylist, with the first one's family |
| LicenseGate.SegmentsOfEither | scripts/lint-license-denylist.py:134-151 | two strings joined by a semicolon, comma or OR spell out the alternatives of both |
| LicenseGate.UnknownMeaning | scripts/lint-license-denylist.py:166-177 | unknown exactly when empty, or with alternatives that are all UNKNOWN |
| LicenseGate.NothingSpelled | scripts/lint-license-denylist.py:151-185 | a string that spells out no alternative is not unknown, and is denied exactly when hit as a whole |
| LicenseGate.BlankPasses | scripts/lint-license-denylist.py:166-177 | every blank string is neither unknown nor denied |
| LicenseGate.DeniedMeaning | scripts/lint-license-denylist.py:178-185 | the verdict in terms of the alternatives spelled out |
| LicenseGate.OrderFree | scripts/lint-license-denylist.py:166-185 | order and repetition of alternatives never change whether a licence is denied or unknown (the reported family they may) |
| LicenseGate.EitherSwaps | scripts/lint-license-denylist.py:166-185 | for denial and unknown, any two strings joined by any separators swap freely |
| LicenseGate.EitherMeaning | scripts/lint-license-denylist.py:166-185 | the verdict and family of any two joined strings from those of the two: denied when both are, a side without known alternatives having no say |
| LicenseGate.AddedAlternative | scripts/lint-license-denylist.py:134-185 | an added alternative turns allowed into denied exactly when it is denied and what it is added to has no known alternative, or nothing is spelled out and the whole is hit |
| LicenseGate.AddedExample | scripts/lint-license-denylist.py:178-185 | "UNKNOWN" is allowed and "UNKNOWN;GPL" denied |
| LicenseGate.FamilyExample | scripts/lint-license-denylist.py:181-185 | "GPL;AGPL" and "AGPL;GPL" are reported under different families |
| LicenseGate.UnknownAppended | scripts/lint-license-denylist.py:178-180 | appending UNKNOWN changes nothing exactly when an alternative is spelled out or the string is empty |
| LicenseGate.BothMeaning | scripts/lint-license-denylist.py:154-163 | two licences joined by AND are hit when either is, and the family is that of the first |
| LicenseGate.ConjunctTightens | scripts/lint-license-denylist.py:154-163 | an added conjunct keeps a single licence denied |
| LicenseGate.ConjunctBeside | scripts/lint-license-denylist.py:154-185 | beside any other text it lifts a denial exactly when added to UNKNOWN, the rest being spelled out and denied and neither conjunct denied |
| LicenseGate.ConjunctExample | scripts/lint-license-denylist.py:154-185 | a denial lifted by an added conjunct |
| FetchRatchet.LoadBaseline | scripts/lint-external-fetch-boundary.py:84-94 | the loop returns the entries of the file, or fails on a count that is no number |
| FetchRatchet.LinesOfJoin | scripts/lint-external-fetch-boundary.py:116-117 | lines without breaks, joined, are split back |
| FetchRatchet.LinesOfEndings | scripts/lint-external-fetch-boundary.py:84-94 | so whichever line ending joins them, with or without one at the end |
| FetchRatchet.CountReads | scripts/lint-external-fetch-boundary.py:84-94 | a count is read with its sign and any white space around it |
| FetchRatchet.BlankSkipped | scripts/lint-external-fetch-boundary.py:84-94 | a blank line is skipped |
| FetchRatchet.RoundTrip | scripts/lint-external-fetch-boundary.py:84-117 | a written baseline reads back as the same counts exactly when every path is stable |
| FetchRatchet.BrokenPathExample | scripts/lint-external-fetch-boundary.py:84-117 | a path that is not |
| FetchRatchet.Check | scripts/lint-external-fetch-boundary.py:132-151 | fails exactly when some file exceeds its entry, or the file does not read; the regressions are those files |
| FetchRatchet.BaselineFile.Run | scripts/lint-external-fetch-boundary.py:120-160 | update rewrites the file and succeeds; the check leaves it alone |
| FetchRatchet.ChangeShrinks | scripts/lint-external-fetch-boundary.py:120-160 | a change that passes, reseeded or not, raises no allowance and exceeds none |
| FetchRatchet.NeverClimbs | scripts/lint-external-fetch-boundary.py:84-160 | over any history no allowance grows and no file exceeds the original baseline |
| ClipboardDaemon.SeenSet.MarkSeen | scripts/clipboard_daemon.py:107-111 | the set after both calls, each at its own time |
| ClipboardDaemon.SeenSet.PollOnce | scripts/clipboard_daemon.py:220-256 | ingests exactly an accepted unseen text of fitting length; otherwise the set is unchanged |
| ClipboardDaemon.SeenSet.Run | scripts/clipboard_daemon.py:259-293 | a run of polls gives the outcomes and the set of the state machine |
| ClipboardDaemon.SuccessExactly | scripts/clipboard_daemon.py:220-256 | a poll is an ingest exactly when the server took a text of fitting stripped length whose digest was not in the set |
| ClipboardDaemon.RefusedNeverMarks | scripts/clipboard_daemon.py:246-256 | a failed POST leaves the set as it is |
| ClipboardDaemon.OnlyIngested | scripts/clipboard_daemon.py:246-256 | a digest in the set was there at the start or is that of an accepted ingest of the run |
| ClipboardDaemon.WeekInSeconds | scripts/clipboard_daemon.py:107-111 | the week is seven days |
| ClipboardDaemon.Remembered | scripts/clipboard_daemon.py:102-111 | unless a week without an ingest came between, a digest is still in the set, which runs out a week after the last ingest |
| ClipboardDaemon.Separated | scripts/clipboard_daemon.py:102-111 | two ingests of the same content are separated by a week without one, unless a mark in between is torn |
| ClipboardDaemon.RepeatedExactly | scripts/clipboard_daemon.py:102-111 | content ingested and not since, copied again with any white space around it, is ingested again exactly when a mark since was torn, a week lay between two ingests, or a week has gone by since the last |
| ClipboardDaemon.TornExample | scripts/clipboard_daemon.py:102-111 | a run in which that happens |
| Percentile.P95Meaning | scripts/k_program_metrics.py:255-259 | the metric is one of the values and meets a target exactly when enough of them do |
| Percentile.P95Numbers | scripts/k_program_metrics.py:255-259 | it meets a target exactly when one value does and, up to rounding, 95 of every 100 |
| Percentile.P95OrderFree | scripts/k_program_metrics.py:255-259 | it does not depend on the order of the values |

## Left out

- Neo4j, Chroma, Redis, HTTP, git, the file system and clocks: stores are maps and sets, calls take effect or fail, times and replies are parameters.
- The web gate's roots in `index.html`, `_population` and the path operations: parameters of the model. The word class `\w` is a parameter.
- JavaScript beyond the structure of `WebGrammar`: whether a slash divides is decided as the script does.
- Numbers of the expression engine are exact reals instead of doubles, `\d` is the ASCII digits, and Python's recursion limit is not modelled.
- Python `ast` walks of TA005 and `_patch_aliases`: the model starts from assignments, appends and assertions with the names they use.
- In the key contract, `_collect_block_props`, `_match_brace`, `classify_ts_value` and the line regexes: lines come classified.
- `merge_entities` is one step that takes effect or fails as a whole; partial failures, tombstones, facts and `unmerge_entity` are not modelled. A missing id is the empty string.
- In the backfill a failing `list_collections`, logging and reports; in the scan, collections that change while they are read.
- Floating-point rounding, infinities and NaN: vectors, logits and percentiles are over the reals; square root and log1p are functions known by their laws; attention masks are zeros and ones.
- The licence patterns themselves: `_family_hit` and `_is_lgpl` are parameters, as are the allowlist and the report of `main`. `argpartition` is known by its contract.
- FetchRatchet.LoadBaseline: does not model underscores, non-ASCII digits in `int()`, and the counting of calls in a file.
- The clipboard daemon's heartbeat, reconnects, URL fetching and content types; Redis calls that raise. The digest is a field of the poll, of which only equality is used.
- `_median`, the other metrics and the remaining lint scripts, generators and reports: they would add only easy members.
