# Verification of the Circuit Bench registry

A Dafny model of the parts of the registry that have to be right for every input and every
run, and proofs about it:

- the `$filter` language of the result query: tokeniser, parser with cursor and node budget,
  canonical printer, compiler to conditions, and the other query options;
- the submission workflow over unboundedly many records, histories and events: create, edit,
  successor (optionally withdrawing its source), withdraw, approve;
- the two history migrations: union-find grouping, the sequence backfill, and the repair of
  publication causes;
- plot geometry (domains, ticks, placement, omission counts) and compact number display;
- two searches with an optimality or existence argument: the overlay placement of the filter
  grid, and the free slug of a revision;
- the content-addressed artifact store with any number of interleaved uploaders.

Run `dafny verify dfyconfig.toml` in this directory. Dafny 4.11.

## Layout

| files | subject |
|---|---|
| `Text`, `NumberText` | numerals, joining and splitting, number literals |
| `FilterSyntax`, `FilterLexer`, `FilterGrammar`, `FilterParser` | the language, an independent grammar of derivations, and the parser as a function |
| `FilterPrinter`, `FilterRoundTrip`, `FilterMeaning` | printing, reading back, meaning |
| `FilterCursor` | the parser as a class with a cursor and a counter, equal to the function |
| `ResultQuery`, `ResultFields` | the six query options, their canonical form, the real field catalogue |
| `Lifecycle`, `LifecycleLog`, `LifecycleInvariant`, `LifecycleTheorems` | the operations on values, the log, the invariant, what it means |
| `LifecycleOutcomes` | for each operation when it succeeds, which error it raises, and everything it changes |
| `LifecycleService` | the workflow as a class updated in place, equal to the operations |
| `RecordComponents`, `HistoryBackfill`, `Resequencing`, `HistoryRepair` | the migrations, each as running loops with a specification |
| `PlotTicks`, `PlotDomain`, `ScatterPlot`, `ScientificFormat`, `DisplayText` | plots and numbers |
| `ChoicePlacement`, `FreeSlug`, `Uploads` | the searches and the artifact store |

Code that works in place is modelled in place: a class or a method with loops whose `ensures`
says that it computes a function or meets a predicate, about which the theorems are stated.

## Where the code differs from what one might expect

- A parsed filter is not always printed and read back as the same tree: nested chains of one
  operator are merged. `FilterRoundTrip.PrintParse` says exactly which tree comes back,
  `FilterRoundTrip.PrintParseIdentity` when it is the same tree, `FilterRoundTrip.NestedOrExample`
  gives an accepted filter for which it is not, and
  `FilterMeaning.CanonicalTextSelectsTheSame` says that it always selects the same rows.
- The canonical text can be longer than the text it came from, and then exceed the length
  limit: `ResultQuery.CanonicalTextCanBeTooLong` gives such a filter for every string field,
  and `ResultQuery.CanonicalRoundTrip` the exact condition.
- Editing an ordinary candidate may give it a predecessor of another history
  (`LifecycleTheorems.HistoriesCanDiffer`, `LifecycleTheorems.EditCanLeaveHistory`); a
  candidate for reapproval cannot leave its history (`LifecycleTheorems.ReapprovalDiscipline`).
- The free-slug search can need one candidate more than the number of used slugs plus one,
  because the plain candidate can coincide with a numbered one: `FreeSlug.SearchBound` says
  exactly when, `FreeSlug.CollisionExample` gives such slugs.
- An upload can fail although nothing is damaged: when another upload of the same run has
  its digest but another size (`Uploads.FailureNeedsClash`). Uploads of given contents can
  fail exactly when two of those contents are such a pair (`Uploads.FailureCondition`).
- Formatting a displayed number again changes it in two cases, both after a carry across the
  limits of plain notation: `ScientificFormat.FormattingRepeats` gives the condition on the
  number, `ScientificFormat.UnsettledExamples` a number for each.

## Model

| member | source | states |
|---|---|---|
| FilterLexer.Tokenise | registry/result_query.py:706-719 | the token list is that of the greedy, backtracking expression applied from left to right, with the end marker, or the first bad character is refused |
| FilterLexer.StrangeCharacter | registry/result_query.py:706-719 | a character that begins no token is refused, whatever follows |
| FilterLexer.MatchStringIsLongest | registry/result_query.py:291-293 | the string expression matches exactly when the text can be split at a closing quote with paired quotes before it, and then takes the longest such text |
| FilterLexer.UnquoteQuote | registry/result_query.py:761-761 | undoubling undoes the doubling of quotes for every text |
| FilterLexer.LexString | registry/result_query.py:291-293 | a quoted text followed by no quote is one token with exactly that text inside |
| FilterLexer.LexNumber | registry/result_query.py:291-293 | a well-formed number is one token, however it is followed |
| NumberText.ReadWrite | registry/result_query.py:291-293 | the number expression reads back exactly the number that was written |
| NumberText.IntegerTextRoundTrip | registry/result_query.py:762-765 | the text of an integer, in front of anything that ends a number, is one number token without point or exponent and converts to that integer |
| NumberText.DecimalTextRoundTrip | registry/result_query.py:766-769 | the text of a decimal, in front of anything that ends a number, is one number token and converts to the same decimal, exponent included |
| NumberText.DecimalMeans | registry/result_query.py:766-769 | the decimal of any literal has the value the literal denotes: whole part and fraction as one coefficient, the exponent lowered by the length of the fraction |
| FilterSyntax.NumberConversion | registry/result_query.py:762-769 | a number token converts to a decimal in any notation, and to an integer exactly when its text has no point and no exponent mark |
| FilterSyntax.WordConversion | registry/result_query.py:757-784 | exactly the words true and false, in any case, convert to booleans; strings and datetimes need a string token, numbers a number token |
| FilterSyntax.ConvertedHasKind | registry/result_query.py:757-784 | whatever is converted for a field has the kind of that field |
| FilterGrammar.TreeIsWellTyped | registry/result_query.py:665-704 | every derivation with checked literals denotes a well-typed tree |
| FilterParser.ParserIsGrammar | registry/result_query.py:585-635 | the parser returns a tree exactly when the `or` < `and` < `not` < primary grammar derives that tree from the tokens and it has no more nodes than allowed |
| FilterParser.GrammarIsUnambiguous | registry/result_query.py:592-635 | no token list has two trees |
| FilterParser.AcceptedIsWellTyped | registry/result_query.py:721-728 | an accepted tree is well typed, null only under eq and ne of a nullable field, booleans and UUIDs only under eq and ne, and within the node limit |
| FilterParser.ComparisonOutcome | registry/result_query.py:617-704 | field, operator and literal are accepted exactly when the field is known, the word is one of the six, the literal converts and the null, nullability and kind rules hold; each failing rule gives its own code, the first one in order |
| FilterParser.CallOutcome | registry/result_query.py:637-655 | a function call is accepted exactly when name, string field, string argument and punctuation fit; each failure gives its own code, the first one in order |
| FilterParser.StrangeBeginning | registry/result_query.py:617-623 | a filter that begins with anything but a word or an opening parenthesis is refused |
| FilterParser.TrailingTokens | registry/result_query.py:585-590 | nothing but `and` and `or` may follow a whole filter |
| FilterParser.MissingClose | registry/result_query.py:618-621 | an opened group has to be closed right after the filter inside |
| FilterParser.SoundChain | registry/result_query.py:592-610 | what a chain loop returns is explained by a derivation of the tokens it consumed, and the node budget falls by the node count |
| FilterParser.CompleteAt | registry/result_query.py:592-635 | every derivation followed by a token that closes its level is parsed to its tree, leaving that token |
| FilterCursor.Parser.constructor | registry/result_query.py:579-583 | a new parser is at the first token with its whole node budget |
| FilterCursor.Parser.Peek | registry/result_query.py:730-731 | the next token of the rest, or the end marker exactly when nothing is left |
| FilterCursor.Parser.Accept | registry/result_query.py:733-737 | the cursor moves one token exactly when the kind matches, and nothing else changes |
| FilterCursor.Parser.AcceptIdent | registry/result_query.py:739-744 | the cursor moves exactly over the keyword, in any case |
| FilterCursor.Parser.Expect | registry/result_query.py:746-751 | a token of the kind is consumed, or the parse stops |
| FilterCursor.Parser.MakeNode | registry/result_query.py:721-728 | one node is counted, or the parse stops at the limit |
| FilterCursor.Parser.Parse | registry/result_query.py:585-590 | the whole token list is consumed and the result is that of the parsing function |
| FilterCursor.Parser.ParseOr | registry/result_query.py:592-600 | result, cursor and counter are those of the parsing function |
| FilterCursor.Parser.ParseAnd | registry/result_query.py:602-610 | result, cursor and counter are those of the parsing function |
| FilterCursor.Parser.ParseNot | registry/result_query.py:612-615 | result, cursor and counter are those of the parsing function |
| FilterCursor.Parser.ParsePrimary | registry/result_query.py:617-635 | result, cursor and counter are those of the parsing function |
| FilterCursor.Parser.ParseFunction | registry/result_query.py:637-655 | result, cursor and counter are those of the parsing function |
| FilterCursor.Parser.Literal | registry/result_query.py:665-681 | the converted literal, with the errors of the registry in their order |
| FilterCursor.Run | registry/result_query.py:578-590 | the running parser computes exactly the function the theorems are about |
| FilterPrinter.LiteralRoundTrip | registry/result_query.py:832-843 | every literal value is read back from its rendering, for each kind |
| FilterPrinter.CanonDerives | registry/result_query.py:815-829 | the printed parentheses are exactly those of a derivation of the merged tree |
| FilterPrinter.LexRender | registry/result_query.py:815-843 | the rendering tokenises to the yield of that derivation, whatever follows |
| FilterRoundTrip.ParsedIsWellTyped | registry/result_query.py:585-590 | any accepted text has a well-typed tree of at most 100 nodes |
| FilterRoundTrip.RenderedIsGrammatical | registry/result_query.py:815-829 | the rendering of every well-typed tree derives exactly its merged tree |
| FilterRoundTrip.PrintParse | registry/result_query.py:815-829 | print, then parse, gives the merged tree exactly when that has at most 100 nodes |
| FilterRoundTrip.ReparseAccepted | registry/result_query.py:296-334 | the rendering of an accepted filter is accepted again, as the merged tree |
| FilterRoundTrip.FlattenNodes | registry/result_query.py:721-728 | merging never adds nodes |
| FilterRoundTrip.FlattenIsFlat | registry/result_query.py:825-829 | after merging no chain has a child of its own operator |
| FilterRoundTrip.FlattenFixesFlat | registry/result_query.py:825-829 | merging changes a tree exactly when it has such a child |
| FilterRoundTrip.PrintParseIdentity | registry/result_query.py:815-829 | an accepted filter is printed and parsed to itself exactly when no chain has a child of its own operator |
| FilterRoundTrip.NestedOrAccepted | registry/result_query.py:617-621 | a parenthesised `or` under an `or` is accepted as a nested tree, which its rendering does not give back |
| FilterRoundTrip.NestedOrExample | registry/result_query.py:825-829 | for every string field, `(name eq 'a' or name eq 'b') or name eq 'c'` is such a filter |
| FilterRoundTrip.RenderFlatten | registry/result_query.py:815-829 | a tree and its merged tree have the same rendering |
| FilterMeaning.CompiledMeansFilter | registry/result_query.py:787-812 | for every row of column values and every strict order on values, the compiled condition holds exactly when the row has what the filter asks for: each comparison in terms of the order, each text function in terms of parts of the text, null only equal to null, all or some children, negation, `ne` as the opposite of `eq` |
| FilterMeaning.FlattenPreserves | registry/result_query.py:787-795 | merging keeps the value of the compiled condition under every reading with associative conjunction and disjunction |
| FilterMeaning.CanonicalTextSelectsTheSame | registry/result_query.py:439-461 | an accepted filter and its re-read canonical text select the same rows under two-valued and three-valued logic, and have the same canonical text |
| ResultQuery.RunOrderby | registry/result_query.py:501-532 | the loop with its set of seen names computes the specified keys or error |
| ResultQuery.RunSelect | registry/result_query.py:535-547 | the loop with its set of seen names computes the selected names without repetition, or the error |
| ResultQuery.ParsedOrderby | registry/result_query.py:501-532 | one to five known, different sort fields |
| ResultQuery.ParsedSelect | registry/result_query.py:535-547 | a non-empty list of known, different fields |
| ResultQuery.BoundedRoundTrip | registry/result_query.py:550-567 | a number is read back from its numeral exactly when it is within the bound, and refused as too large otherwise |
| ResultQuery.NegativeIsRefused | registry/result_query.py:561-562 | a negative number is refused |
| ResultQuery.GroupedInteger | registry/result_query.py:555-560 | an underscore between digits does not change the number |
| ResultQuery.CountOutcome | registry/result_query.py:570-575 | the count option is true or false in any case; empty means false and everything else is refused |
| ResultQuery.SplitJoin | registry/result_query.py:439-461 | splitting undoes joining for parts without the separator |
| ResultQuery.ParsedQueryIsWellFormed | registry/result_query.py:296-334 | whatever is parsed is a well-formed query: typed filter of at most 100 nodes, one to five keys, selection, page of at most 1,000 |
| ResultQuery.OrderbyRoundTrip | registry/result_query.py:451-453 | the order option that names known keys is read back as them, refused for a repeated name and for more than five |
| ResultQuery.OrderItemOutcome | registry/result_query.py:506-523 | one word sorts ascending, a second gives the direction in any case, a third is an error; unknown fields and directions have their own codes |
| ResultQuery.LoneFieldIsAscending | registry/result_query.py:516-516 | a field name alone means the same as that name with asc |
| ResultQuery.NoOptions | registry/result_query.py:296-334 | without options, or with blank ones, a query asks for the first 100 results, newest first, all fields, no count |
| ResultQuery.StripSurrounded | registry/result_query.py:304-310 | white space around an option does not count |
| ResultQuery.CanonicalIsShort | registry/result_query.py:449-461 | the canonical options leave out exactly what their absence says as well |
| ResultQuery.SelectOptionRoundTrip | registry/result_query.py:454-455 | the canonical selection, or its absence, is read back as the same names |
| ResultQuery.FilterOptionRoundTrip | registry/result_query.py:304-310 | the canonical filter is read back as the merged tree exactly when it is within the length limit |
| ResultQuery.CanonicalRoundTrip | registry/result_query.py:439-461 | the canonical options of a query parse to that query with merged chains exactly when the filter text is within the limit, and that query has the same canonical options |
| ResultQuery.CanonicalTextCanBeTooLong | registry/result_query.py:304-309 | for every string field there is an accepted filter whose canonical text is refused |
| ResultFields.CatalogueIsValid | registry/result_query.py:67-205 | the 27 real fields form a valid catalogue, so the theorems apply to them |
| LifecycleLog.LatestIsCount | registry/services/histories.py:85-86 | the highest sequence of a history is the number of its events |
| LifecycleLog.ExactlyOneToN | registry/services/histories.py:85-102 | the sequences of a history are exactly 1 to n, without repetition |
| LifecycleLog.StateInThePast | registry/services/histories.py:62-112 | a record's projection at an earlier time follows from its publication and withdrawal times |
| LifecycleInvariant.CreateKeepsInv | registry/services/submissions.py:116-213 | creation keeps the invariant |
| LifecycleInvariant.EditKeepsCore | registry/services/submissions.py:337-373 | an edit keeps the invariant |
| LifecycleInvariant.RetireKeepsCore | registry/services/submissions.py:423-447 | a withdrawal keeps the invariant |
| LifecycleInvariant.PublishKeepsCore | registry/services/submissions.py:483-504 | a publication keeps the invariant |
| LifecycleInvariant.StepKeepsInv | registry/services/submissions.py:110-505 | every operation keeps the invariant, whether it raises or not |
| LifecycleInvariant.ReachableInv | registry/services/submissions.py:110-505 | the invariant holds in every reachable registry |
| LifecycleTheorems.StateEqualsLog | registry/models/common.py:24-51 | in every reachable registry each record's state and times are the projection of its own events and fit the lifecycle constraint; sequences are exactly 1 to n; every publication is caused by an earlier approval of the same record in the same history |
| LifecycleTheorems.ProvenanceAtPublication | registry/services/submissions.py:855-864 | at the publication of a public result its decoder, circuit and machine were published, whatever happened before or since |
| LifecycleTheorems.LineageIsForest | registry/services/submissions.py:547-566 | every proper ancestor is public, of the same kind and released earlier, no record is its own ancestor, and only machines can have two successors |
| LifecycleTheorems.ApprovalCondition | registry/services/submissions.py:450-505 | approval succeeds exactly under conditions on the reviewer, the record being pending, a result's references and the remaining form checks; the predecessor check never fails |
| LifecycleTheorems.HistoryKindsAgree | registry/services/histories.py:27-34 | the history-kind check never raises |
| LifecycleTheorems.CurrentApprovalIsCause | registry/services/histories.py:181-190 | the current approval of a public record is the cause of its publication with the highest sequence |
| LifecycleTheorems.ReapprovalDiscipline | registry/services/submissions.py:351-354 | a candidate for reapproval keeps its predecessor and that predecessor's history through any run, and is public only with an approval by an active admin account |
| LifecycleTheorems.ChangesAreAllowed | registry/services/submissions.py:534-544 | a record changes only by its active submitter or an active admin, only along the lifecycle, and publication leaves lineage and references as they are |
| LifecycleTheorems.ReplacementIsAtomic | registry/services/submissions.py:376-420 | a replacement changes nothing or leaves a withdrawn source and its candidate, and no other record changes |
| LifecycleTheorems.EditCanLeaveHistory | registry/services/submissions.py:569-590 | after an edit of an ordinary candidate its history agrees with its predecessor's exactly when it already did |
| LifecycleTheorems.HistoriesCanDiffer | registry/services/submissions.py:569-590 | a run after which a candidate and its predecessor are in different histories |
| LifecycleOutcomes.CreateCondition | registry/services/submissions.py:116-145 | a creation succeeds exactly for an acceptable payload, a predecessor without a successor and an active account; which error otherwise |
| LifecycleOutcomes.CreateEffect | registry/services/submissions.py:145-213 | a creation adds one record with the payload's kind, lineage, references and submitter, its state and history, and exactly its events in order with their causes; nothing else changes |
| LifecycleOutcomes.EditCondition | registry/services/submissions.py:337-366 | an edit succeeds exactly when its account is active and owns the pending record or is an admin, and the payload is acceptable; which error otherwise |
| LifecycleOutcomes.EditEffect | registry/services/submissions.py:351-373 | an edit stores the payload's references, and its predecessor unless the record awaits reapproval, changes no other field and no other record, and logs one event by that account |
| LifecycleOutcomes.WithdrawCondition | registry/services/submissions.py:423-434 | a withdrawal succeeds exactly for a published record and an active owner or admin; which error otherwise |
| LifecycleOutcomes.WithdrawEffect | registry/services/submissions.py:435-447 | a withdrawal sets state and time of one record and logs one event |
| LifecycleOutcomes.SuccessorCondition | registry/services/submissions.py:376-411 | a successor is created exactly for a public source without one, by an active owner or admin, with an acceptable payload, and with withdrawal only of a published decoder or circuit; which error otherwise |
| LifecycleOutcomes.SuccessorEffect | registry/services/submissions.py:396-420 | the source is withdrawn first where asked for, then one record is added after it, for reapproval exactly when the source is then withdrawn, with all events in order |
| LifecycleOutcomes.ApprovalErrors | registry/services/submissions.py:457-478 | approval is refused as not permitted exactly for an inactive account or one that is no admin, and otherwise only for the state |
| LifecycleOutcomes.ApprovalEffect | registry/services/submissions.py:483-504 | an approval publishes one record at the time of its publication event, keeps everything else, and logs the approval and the publication it causes |
| LifecycleService.Service.constructor | registry/services/submissions.py:110-113 | a new service is the empty registry |
| LifecycleService.Service.AppendHistoryEvent | registry/services/histories.py:62-112 | the log grows by one event with the next sequence of its history |
| LifecycleService.Service.HistoryForNewRecord | registry/services/histories.py:27-34 | the predecessor's history is shared, or a new one is allocated |
| LifecycleService.Service.CreateSubmission | registry/services/submissions.py:110-113 | reply and registry are those of the operation; a refusal changes nothing |
| LifecycleService.Service.CreateRecord | registry/services/submissions.py:116-213 | reply and registry are those of the operation, with the immediate publication of machines |
| LifecycleService.Service.SubmitRecord | registry/services/submissions.py:138-191 | the candidate, its history and its submission events |
| LifecycleService.Service.PublishRecord | registry/services/submissions.py:192-212 | the approval, the publication it causes, and the published record |
| LifecycleService.Service.UpdatePending | registry/services/submissions.py:337-373 | the registry afterwards is that of the edit operation, whose condition and whole effect are LifecycleOutcomes.EditCondition and EditEffect; a refusal changes nothing |
| LifecycleService.Service.CreateSuccessorRecord | registry/services/submissions.py:376-420 | reply and registry are those of the operation; a failed creation undoes the withdrawal |
| LifecycleService.Service.WithdrawRecord | registry/services/submissions.py:423-447 | reply and registry are those of the operation; a refusal changes nothing |
| LifecycleService.Service.ApproveRecord | registry/services/submissions.py:450-505 | reply and registry are those of the operation; a refusal changes nothing |
| RecordComponents.HalvingKeepsRoots | registry/migrations/0006_record_histories.py:26-30 | path halving changes no root |
| RecordComponents.Forest.constructor | registry/migrations/0006_record_histories.py:23-24 | every identifier starts alone |
| RecordComponents.Forest.Find | registry/migrations/0006_record_histories.py:26-30 | the walk ends at the root and changes no root |
| RecordComponents.Forest.Union | registry/migrations/0006_record_histories.py:32-38 | exactly the two groups are merged, under the lesser root |
| RecordComponents.RootIsLeast | registry/migrations/0006_record_histories.py:36-38 | a root is the least identifier of its component |
| RecordComponents.Components | registry/migrations/0006_record_histories.py:22-48 | the groups are the components of the link graph, each under its least identifier, each once, members in the given order |
| RecordComponents.SameGroup | registry/migrations/0006_record_histories.py:45-48 | two identifiers are in one of the returned groups together exactly when predecessor links connect them |
| HistoryBackfill.Backfill.NumberExisting | registry/migrations/0006_record_histories.py:110-143 | existing events are numbered per history in order of occurrence, and the counters count |
| HistoryBackfill.Backfill.CompleteRecord | registry/migrations/0006_record_histories.py:149-255 | exactly the missing events of the record are appended, the publication caused by its approval, and the counters count |
| HistoryBackfill.Backfill.Run | registry/migrations/0006_record_histories.py:110-255 | the log is well numbered, causes are earlier approvals of the same record, and every record has the events its state and lineage call for |
| HistoryBackfill.CompletedAllIsComplete | registry/migrations/0006_record_histories.py:145-255 | all records are complete afterwards and no existing event changed |
| HistoryBackfill.AddedInOrder | registry/migrations/0006_record_histories.py:154-250 | a record gets exactly the events it lacks, once each: submission before approval, approval before the publication it causes, publication before withdrawal |
| HistoryBackfill.BackfillKeepsLegacy | registry/migrations/0006_record_histories.py:111-140 | the backfilled log begins with the legacy events in their order |
| HistoryBackfill.NothingToAdd | registry/migrations/0006_record_histories.py:151-254 | a record gets no event exactly when it is complete |
| HistoryBackfill.BackfillIsIdempotent | registry/migrations/0006_record_histories.py:145-255 | a second pass over the records adds nothing |
| HistoryBackfill.BackfillFeedsRepair | registry/migrations/0006_record_histories.py:110-255 | in every history the backfilled log meets what the repair starts from |
| Resequencing.RaisingIsSafe | registry/migrations/0007_repair_legacy_histories.py:30-32 | raising the sequences row by row in any order never repeats one exactly when the history has at most 1,000,000 events |
| Resequencing.AssigningIsSafe | registry/migrations/0007_repair_legacy_histories.py:33-34 | assigning 1 to n in the new order never repeats a sequence on the way |
| Resequencing.RaiseAll | registry/migrations/0007_repair_legacy_histories.py:30-32 | the first update raises every sequence, or meets a duplicate, which needs more than 1,000,000 events |
| Resequencing.Resequence | registry/migrations/0007_repair_legacy_histories.py:29-34 | the final sequences are exactly the given order, or an update violates the unique constraint, which needs more than 1,000,000 events |
| HistoryRepair.ChooseIsRight | registry/migrations/0007_repair_legacy_histories.py:61-67 | the choice is the approval of the record with the greatest sequence below the listed one; if none is below, the one with the least; none only if there is none |
| HistoryRepair.MoveKeepsOthers | registry/migrations/0007_repair_legacy_histories.py:97-100 | moving an approval keeps the order of all other events |
| HistoryRepair.MoveKeepsLinks | registry/migrations/0007_repair_legacy_histories.py:97-100 | moving an approval forward keeps every recorded cause in front of its publication |
| HistoryRepair.StillStale | registry/migrations/0007_repair_legacy_histories.py:50-66 | the listed sequence of a publication is never above its true one |
| HistoryRepair.HistoryLog.InOrder | registry/migrations/0007_repair_legacy_histories.py:94-96 | the ordered query lists every event once |
| HistoryRepair.HistoryLog.CreateApproval | registry/migrations/0007_repair_legacy_histories.py:68-92 | a new approval takes the next sequence and disturbs nothing |
| HistoryRepair.HistoryLog.PutBefore | registry/migrations/0007_repair_legacy_histories.py:94-100 | the approval takes the sequence of the publication and everything from there to its old place goes up by one; an approval that came first leaves every sequence as it is; the renumbering fails only beyond 1,000,000 events |
| HistoryRepair.HistoryLog.Publications | registry/migrations/0007_repair_legacy_histories.py:50-54 | the publications are listed once each, with their current sequences, by ascending sequence |
| HistoryRepair.HistoryLog.RepairOne | registry/migrations/0007_repair_legacy_histories.py:55-101 | one publication is attributed to the approval of its record with the greatest sequence below the listed one, else to the one with the least, else to a new one, which is put in front of it; no other sequence changes otherwise and earlier links stay valid; with fewer than 1,000,000 events it never fails |
| HistoryRepair.HistoryLog.Repair | registry/migrations/0007_repair_legacy_histories.py:50-101 | every publication ends with a cause that is an approval of the same record at a smaller sequence; sequences are 1 to n; existing events, recorded causes and the order of other events are kept; it fails only if the events and the publications without a cause number more than 1,000,000, and then nothing has changed |
| PlotTicks.NiceStepIsNear | registry/result_plots.py:567-579 | the step is 1, 2, 5 or 10 times a power of ten, and the rough step is between 0.6 and 1.5 times as long |
| PlotTicks.StepChosen | registry/result_plots.py:567-579 | 1, 2 or 5 times a power of ten is the step exactly for rough steps between 0.7, 1.5, 3 and 7 times that power |
| PlotTicks.MinorStepIsNice | registry/result_plots.py:582-586 | the minor step is again 1, 2, 5 or 10 times a power of ten |
| PlotTicks.MultiplesAreExact | registry/result_plots.py:589-599 | the values are exactly the multiples of the step in the domain |
| PlotTicks.MajorTickCount | registry/result_plots.py:549-564 | 2 to 6 major ticks for four target intervals, 3 to 9 for six |
| PlotTicks.TicksInDomain | registry/result_plots.py:549-564 | major ticks are exactly the multiples of the step in the domain, minor ticks those of the minor step that are not major |
| PlotTicks.TicksAscend | registry/result_plots.py:549-564 | ticks are listed from left to right, each once |
| PlotTicks.MajorIsMinorMultiple | registry/result_plots.py:582-586 | every multiple of the step is a multiple of the minor step |
| PlotTicks.MinorTicksBetween | registry/result_plots.py:582-586 | between consecutive major ticks the minor ticks are exactly the 3 or 4 inner parts |
| PlotDomain.DomainExists | registry/result_plots.py:420-468 | for every mix of valid bounds the domain exists and its minimum is less than its maximum |
| PlotDomain.AutomaticShape | registry/result_plots.py:430-450 | the extreme values are a twentieth of their distance inside an automatic domain, a single value is in its middle, and without values it is 0 to 1 |
| PlotDomain.DomainShape | registry/result_plots.py:452-475 | an explicit bound is the end of the domain; the other end is the automatic one where that leaves room |
| PlotDomain.InRangeIsInDomain | registry/result_plots.py:402-468 | every value within the explicit bounds is in the domain |
| PlotDomain.PositionOrder | registry/result_plots.py:693-698 | a value is in the domain exactly when it is inside the rectangle; x keeps and y reverses order |
| PlotDomain.ClampKeepsOrder | registry/result_plots.py:793-795 | clamping keeps order, and inside the domain the clamped horizontal and vertical positions are the plotted ones |
| PlotDomain.SubDecadeCount | registry/result_plots.py:602-618 | an axis of less than a decade has 3 to 9 major ticks |
| PlotDomain.LogTicksInDomain | registry/result_plots.py:602-647 | every logarithmic tick is in the domain, and none is both major and minor |
| PlotDomain.LogTicksAreExact | registry/result_plots.py:602-647 | which values are ticks, both ways: from one decade on all multiples 1 to 9 of powers of ten in the domain, of which the major ones are the 1-2-5 values below two and a half decades and the powers of ten from there |
| PlotDomain.LogTicksAscend | registry/result_plots.py:602-647 | on every span ticks are listed from left to right, each once |
| PlotDomain.OneTwoFiveCount | registry/result_plots.py:629-642 | over one to two and a half decades there are 3 to 8 major ticks, given that the power function turns sums into products |
| PlotDomain.DecadeTicks | registry/result_plots.py:620-647 | from two and a half decades on every power of ten in the domain is a major tick, and there are at least two |
| ScatterPlot.ShownIsInside | registry/result_plots.py:693-698 | a result within the bounds is placed inside the rectangle |
| ScatterPlot.PointsKeepOrder | registry/result_plots.py:693-698 | points are ordered by x value from left to right and by y value upwards |
| ScatterPlot.FatesAddUp | registry/result_plots.py:114-163 | every result is shown or omitted for exactly one reason |
| ScatterPlot.FateCondition | registry/result_plots.py:114-163 | why a result is omitted, exactly, in terms of its values, the scales and the bounds |
| ScatterPlot.DomainValuesAre | registry/result_plots.py:348-357 | the domain is chosen for exactly the values and, with uncertainty shown, the drawable interval ends of the results that take part |
| ScatterPlot.IntervalsAreInside | registry/result_plots.py:312-357 | with uncertainty shown every drawable interval end within the bounds lies inside the domain |
| ScatterPlot.Place | registry/result_plots.py:155-200 | range omissions and points are those of the results that take part |
| ScatterPlot.Build | registry/result_plots.py:100-203 | no exception; counters count exactly the omitted results; domains are those of all results that take part; points are those of the shown results in order, inside the rectangle |
| ScientificFormat.MantissaIsNormal | registry/formatting.py:24-33 | a scientific mantissa is at least 1 and below 10, also after the carry |
| ScientificFormat.DisplayIsNear | registry/formatting.py:22-36 | the shown value is within half a unit of the last significant place |
| ScientificFormat.TiesGoToEven | registry/formatting.py:27-35 | halves are rounded to the even neighbour |
| ScientificFormat.FormattingSettles | registry/formatting.py:22-36 | formatting again changes a display exactly in the two carry cases, and formatting twice always reaches a fixed point |
| ScientificFormat.UnsettledCondition | registry/formatting.py:22-36 | the two cases are those of a number within half a unit below 10000 in plain notation, or below 0.1 in scientific notation |
| ScientificFormat.FormattingRepeats | registry/formatting.py:22-36 | formatting again changes nothing exactly when the number does not round to one of those limits |
| ScientificFormat.UnsettledExamples | registry/formatting.py:27-36 | 9999.9 shows as 10000 and then as 1e4; 0.099999 shows as 1e-1 and then as 0.1 |
| DisplayText.TrimIsFixed | registry/formatting.py:67-68 | trimming leaves the text of the same number without trailing zeros |
| DisplayText.FormattedText | registry/formatting.py:22-36 | the produced text is the text of the display |
| DisplayText.SomeText | registry/formatting.py:22-36 | every finite number has a text |
| DisplayText.SameTextSameDisplay | registry/formatting.py:22-36 | two numbers have the same text exactly when they have the same display |
| DisplayText.TextSettles | registry/formatting.py:22-36 | formatting the shown number again gives the same text exactly when the number does not round to one of the two limits of plain notation |
| ChoicePlacement.SlotPositionRoundTrip | static/js/filter-grid.js:69-72 | slots and grid cells correspond one to one |
| ChoicePlacement.BlockIsClear | static/js/filter-grid.js:74-80 | true exactly when the block starts at a slot and holds no blocked slot |
| ChoicePlacement.CandidateIsPlacement | static/js/filter-grid.js:90-103 | a candidate's block is free, its anchor the slot nearest to the source, its options all other slots in order, its added rows the fewest that make room, its penalty 1 exactly when options lie on both sides, its distance that of the middle of the block |
| ChoicePlacement.ComparePrecedes | static/js/filter-grid.js:105-110 | the comparison orders by added rows, then anchor distance, then split, then block distance; ties go by start |
| ChoicePlacement.Sort | static/js/filter-grid.js:105-110 | the candidates in order of the comparison, equal ones by start |
| ChoicePlacement.BestWithinIsBestOfAll | static/js/filter-grid.js:84-88 | no block beyond the searched slots is better |
| ChoicePlacement.Place | static/js/filter-grid.js:82-112 | no placement exactly when no searched block is free, which cannot happen while only slots of the present rows are blocked; the placement is the best of all starting slots |
| FreeSlug.SuccessorSlug | registry/views_submissions.py:698-705 | the first unused candidate; at most one more rejected than there are used slugs, none more without a collision; at most 200 characters if the suffix fits |
| FreeSlug.NumberedInjective | registry/views_submissions.py:702-703 | candidates with different numbers differ |
| FreeSlug.CandidateStem | registry/views_submissions.py:698-703 | in front of its number a candidate is the slug with "-revision", cut to the limit and stripped of hyphens at its end |
| FreeSlug.ShortCandidates | registry/views_submissions.py:698-703 | where the limit allows, the candidates are the slug with "-revision", "-revision-2" and so on |
| FreeSlug.CollidesExactly | registry/views_submissions.py:699-703 | the computed test finds a collision exactly when some numbered candidate equals the plain one |
| FreeSlug.ShortSlugsDoNotCollide | registry/views_submissions.py:698-699 | slugs of at most 198 characters never collide |
| FreeSlug.SearchBound | registry/views_submissions.py:698-705 | the search tries at most one candidate more than there are used slugs, whatever is used, exactly when there is no collision |
| FreeSlug.CollisionExample | registry/views_submissions.py:698-705 | slugs for which one used slug makes the search reject two candidates |
| FreeSlug.LengthOfNumbered | registry/views_submissions.py:702-703 | a numbered candidate is within 200 characters exactly when its suffix is |
| Uploads.Receive | registry/services/artifacts.py:208-250 | the chunk loop accepts exactly the contents within the limit that meet the expectations, and refuses others with the first applicable error |
| Uploads.AcceptedExactly | registry/services/artifacts.py:208-250 | an upload is accepted exactly when its whole content is within the limit and has the expected digest and size |
| Uploads.ObjectKeyInjective | registry/services/artifacts.py:257-257 | different digests have different object keys |
| Uploads.StepKeepsInv | registry/services/artifacts.py:252-285 | every step of every uploader keeps the invariant |
| Uploads.StoreIsConsistent | registry/services/artifacts.py:252-285 | over every interleaving each object hashes to its key, each row's digest and size are those of its object, and no digest has two rows |
| Uploads.StoredNeverChanges | registry/services/artifacts.py:367-374 | objects and rows never change once stored, whatever happens later |
| Uploads.SameContentSameRow | registry/services/artifacts.py:252-285 | uploaders of one digest receive the same row |
| Uploads.OneCreator | registry/services/artifacts.py:267-285 | at most one of them is told that it created the row |
| Uploads.UploadsFinish | registry/services/artifacts.py:252-285 | an uploader that takes six steps and does not disappear ends with a row or with an error, whatever the others do in between |
| Uploads.UploadSucceeds | registry/services/artifacts.py:252-285 | unless another upload of the run has its digest and another size, it ends with a stored row of the digest and size of its content, and is told that it created the row exactly when the row carries its identifier |
| Uploads.DoneReportsRow | registry/services/artifacts.py:252-285 | whatever a finished upload reports is a stored row with its digest and a matching object |
| Uploads.ExistingRowIsReturned | registry/services/artifacts.py:252-255 | where a row of the digest exists before the check, the upload ends with that row and as not its creator |
| Uploads.FailureNeedsClash | registry/services/artifacts.py:313-325 | an upload fails only if another upload of the same run has its digest and another size |
| Uploads.FailureCondition | registry/services/artifacts.py:313-325 | with distinct identifiers, uploads of given contents can fail exactly when two of those contents share a digest and differ in size |
| Uploads.ArtifactStore.constructor | registry/services/artifacts.py:196-206 | a new store is empty |
| Uploads.ArtifactStore.FirstRow | registry/services/artifacts.py:252-252 | the first row with the digest |
| Uploads.ArtifactStore.CreateObject | registry/services/artifacts.py:370-374 | the object is created exactly when there is none under its key |
| Uploads.ArtifactStore.CreateRow | registry/services/artifacts.py:267-279 | the row is added exactly when no unique field is taken |
| Uploads.ArtifactStore.Begin | registry/services/artifacts.py:208-250 | an accepted request becomes an uploader, a refused one changes nothing |
| Uploads.ArtifactStore.Abandon | registry/services/artifacts.py:286-288 | an uploader disappears without touching the store |
| Uploads.ArtifactStore.Advance | registry/services/artifacts.py:252-285 | one step of the run that the theorems are about |

## Left out

- Error positions and messages: a filter error is its code only.
- Decimal digits other than 0 to 9, which the number expression of the tokeniser also admits.
- UUID and datetime text: parsers are parameters that read back what they render and whose texts hold no quote; JSON and CSV output of values is not modelled.
- Decimal precision and exponent limits, and the length limit of Python's integer parser: numbers are exact.
- The recursion limit of the interpreter: parentheses are not counted as nodes, so a filter within the length and node limits can nest groups more deeply than the interpreter's call stack allows, and the parser then fails where `FilterParser.ParserIsGrammar` accepts.
- Normalising option names (`_normalise_options`), joining the canonical options with `&`, and the other direction in `result_comparison.py`, which is sound only without `&` in literals.
- Running the query against the database (`execute_result_query`, paging, NULL rewriting under negation): conditions are evaluated on the column values of a row with every lookup of a null column failing, and the order on values is a parameter.
- Form and schema rules on fields outside the lifecycle: one flag of the payload stands for them, another for the checks repeated at approval; slugs, schema releases, noise models and evaluators are not part of the workflow model.
- Clock time: an event occurs at its position in the log, so times are distinct and increasing.
- Payload snapshots, notes, policy versions and visibility of events.
- RecordComponents.Components: identifiers are ranks in the string order, which is all that the grouping compares.
- HistoryRepair.HistoryLog.Repair: repairs one history at a time; the migration's single list is ordered by history and histories share no events. Merging the `details` dictionaries is not modelled.
- HistoryBackfill.Backfill.Run: the existing events are given in the order of the database query, and event texts, actors and details are left out.
- Rounding of coordinates for output, labels, uncertainty drawing and the axis declaration other than ticks.
- ScientificFormat.DisplayIsNear: speaks of exact arithmetic; the JavaScript formatter on binary floating point is not modelled, nor are values that are not finite numbers.
- ChoicePlacement.Sort: an insertion sort stands for the engine's stable sort; reading the layout from the page and the overlay's elements are left out.
- Uploads.ArtifactStore.Advance: verification of an object is one step; temporary files, symbolic links, the R2 backend, file names and media types are left out, and so are enclosing transactions that later remove a row.
- Benchmark attempt summaries, Markdown rendering, comparison views, histograms, accounts, demo data and all page code: their claims are simpler than those above.
