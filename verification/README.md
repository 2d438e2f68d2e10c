# FYLO verification

FYLO is a document store whose parts promise that a fast or many-step form agrees with a
simple one.  This project models those parts in Dafny 4.11 and proves what they promise;
where a promise does not hold as stated, it gives an input that breaks it and the exact
condition under which it holds.

`dafny verify dfyconfig.toml` verifies everything.  One module per file:

- **Stable reads** (`Journal`, `StableRead`, `Recovery`).  Writers publish an odd generation,
  change records under a journal of before-images, and publish an even generation; a crash is
  possible after every step.  A reader compares generations around a series of single reads.
  Accepted reads are snapshots of one stable generation, transactions are all or nothing.
- **Index and planner** (`Documents`, `Uri`, `Hexadecimal`, `SortKeys`, `IndexKeys`,
  `IndexLookups`, `IndexPlan`, `PlanCollections`, `PlanExact`, `IndexSnapshot`, `SnapshotExact`,
  `Ordering`).  Key derivation for every leaf of a document, order-preserving number keys, text
  keys whose percent-encoding is a prefix code, the equality planner (a union of intersections of
  key scans) against the full scan, and the binary search over the raw index file that carries
  the scans out.
- **Machine protocol** (`Frames`, `Pages`, `PageRuns`, `Decimal`).  The chunked frame reader
  against splitting on LF; snapshot cursors delivered in pages that fit a byte budget.
- **LIKE** (`Like`).  Greedy matching with backtracking to the last wildcard against the
  declarative relation, with bounds on the iterations from above and below.
- **SQL** (`SqlLexer`, `SqlParser`, `SqlWhere`, `SqlRows`, `SqlPieces`, `SqlPrint`, `SqlRoundTrip`,
  `SqlWeights`, `SqlBudget`, `SqlBalance`, `SqlExact`).  Lexer and SELECT parser as classes over a
  position, the meaning of a WHERE clause, literal quoting, and exactly which queries printing
  followed by parsing gives back.  That nothing else comes back, whatever a string makes of the
  text behind it, is shown by weighing: tokens weigh no more than the characters they were read
  from, for any choice of weights.
- **Client JSON** (`JsonText`, `JsonScan`, `JsonFields`, `JsonDecode`).  The raw scanner on the
  printer's output, field and element slices, string decoding.
- **Field encryption** (`Base64`, `Encryption`).  The base64url codec and the tree rewriting
  that seals and opens declared fields.
- **Smaller state machines** (`Overlay`, `OverlayExact`, `Shards`, `Schema`, `Lease`).  The copy-on-write file
  system against a plain tree, resharding that may stop at any rename, schema upgrade chains,
  and the exclusive root lease.

Algorithms that change state are methods or classes with loops, proved against specification
functions; the properties are lemmas about those functions.  `Common` holds the two result
datatypes and the byte type.

## Where the code and its promises differ

- A failure after the durable commit marker makes the writer roll back in process; a crash
  during that rollback is rolled forward and publishes a torn state
  (`Recovery.LateFailureTears`), unless the transaction changed at most one record
  (`Recovery.AtomicFromMarkerExactly`).  The repository's README.md:174-176 speaks of roll-forward
  only.
- The generation counter saturates; at the last number the reader's comparison no longer
  detects a write (`StableRead.CheckIsSoundExactly`).
- The comment "can only over-match, never under-match" (crates/fylo-engine/src/lib.rs:1271-1274)
  does not hold for operands that are loosely equal to values with another stored text, such as
  null, booleans and numeric strings (`PlanExact.PlannedEqualityExactly`); on one collection it
  holds exactly when the returned records are indexed where the plan looks
  (`PlanCollections.PlannedEqualsScanExactly`).
- Validation of an index file skips blank lines, on which its binary search can turn the wrong
  way (`IndexSnapshot.BlankLineHidesKey`, `SnapshotExact.SearchesCompleteExactly`).
- The LIKE matcher compares literally before it looks for a wildcard, so a percent sign in the
  value defeats it (`Like.LikeExactly`); its cost is bounded by the product of the lengths
  but, against the comment at src/query/like.js:1-11, by no multiple of their sum
  (`Like.WorkIsNotLinear`).
- A repeated column and operator in one conjunction overwrites the earlier condition
  (`SqlWhere.MeaningKeptExactly`, `SqlRows.ChainKeptOnRowsExactly`); `toSQL` neither keeps OR nor doubles quotes nor restores dots
  and signs (`SqlExact.ParseUndoesPrintExactly`, `SqlExact.DisjunctionIsLost`).
- The encryption walks name the members of an object with an empty top-level name differently
  (`Encryption.EmptyNameStaysSealed`).
- Reads of a removed base file still succeed in the overlay, moving a file onto itself discards
  the layer's content, and a refused write can bring a removed base file back
  (`Overlay.ReadableExactly`, `OverlayExact.SelfMoveExactly`, `OverlayExact.RefusedWriteRestores`;
  exactly when it does what a plain file system does: `OverlayExact.StepAgreesExactly`).
- During an interrupted reshard documents stay findable, raw files need not
  (`Shards.RawFoundExactly`), although crates/fylo-machine/src/lib.rs:1013-1017 promises it for
  every record.  Inside a recovery a record may for a moment be in no directory
  (`Shards.FoundOrReinstated`).
- `materialize` does not stamp a document that is at the head already
  (`Schema.StampedExactly`).

## Model

| member | source | states |
|---|---|---|
| Journal.ConsistentAlways | crates/fylo-storage-native/src/write.rs:2053-2240 | In every run of transactions, crashes and recoveries a writing generation has a journal and is one above the number recorded there, a writer past opening works inside a writing generation, and one that has captured nothing leaves an empty journal |
| Journal.ParityAlways | README.md:170-173 | Starting from an even number, a stable generation is even and a writing one odd, up to the saturated last number |
| Journal.PlayIsRun | crates/fylo-storage-native/src/write.rs:2053-2240 | Any script of writer steps, with impossible steps skipped, is a run: the model has the runs the counterexamples need |
| StableRead.ReadStable | crates/fylo-engine/src/lib.rs:1487-1506 | For any interleaving with writers, a result below the saturated number is the closure's value on the records of one stable generation; an error is a failed look at the generation, or the closure's own, raised on what an attempt begun at a stable generation had read; ConcurrentWrite means three disjoint attempts each overlapped a writer |
| StableRead.WindowFrozen | crates/fylo-engine/src/lib.rs:1487-1506 | Between two equal stable generations below the last number no record the reader can see differs, at any instant in between |
| StableRead.ChangeNeedsWriter | crates/fylo-engine/src/lib.rs:1491-1505 | A generation that differs, or is being written, at the second look implies a writer active inside the window |
| StableRead.AcceptedReadIsSnapshot | crates/fylo-engine/src/lib.rs:1487-1506 | Reads spread one by one over an accepted window evaluate to what one atomic evaluation gives |
| StableRead.CheckIsSoundExactly | crates/fylo-engine/src/lib.rs:1487-1506 | The generation comparison is a sound change detector for a number exactly when it is not the last 64-bit one, where the saturating increment stands still |
| StableRead.SaturatedWrite | crates/fylo-storage-native/src/write.rs:2053-2117 | A full transaction at the last number changes a record and publishes the same stable generation again |
| Recovery.SoundAlways | crates/fylo-storage-native/src/write.rs:2053-2240 | At every point of every run the captures restore the transaction's start, whatever crash or rollback is in progress |
| Recovery.TransactionsAreAtomic | crates/fylo-storage-native/src/write.rs:1416-1449 | Without a failure after the commit marker, each published generation shows all of the transaction's changes (committed) or none of them |
| Recovery.LateFailureTears | crates/fylo-storage-native/src/write.rs:1865-1880 | A failure after the durable commit marker starts an in-process rollback; a crash inside it is rolled forward, publishing the first n captured records new and the rest old, for any n: neither the base nor the target exactly when something changed on both sides of n |
| Recovery.AtomicFromMarkerExactly | crates/fylo-storage-native/src/write.rs:1416-1449 | From a durable commit marker every continuation publishes the base or the target exactly when the transaction changed at most one captured record |
| Like.MatchesLike | src/query/like.js:12-41 | The loop decides the matcher's verdict, and its iterations are those the work function counts, fewer than (length of value + 1) times (length of pattern + 1) |
| Like.DraggingIsQuadratic | src/query/like.js:19-36 | On 2n letters against a wildcard, n matching letters and one that fails, the loop runs more than n times n times |
| Like.WorkIsNotLinear | src/query/like.js:1-11 | No multiple of the sum of the lengths bounds the iterations |
| Like.PlainValuesAreExact | src/query/like.js:12-41 | For a value without a misleading percent sign, greedy matching that backtracks to the last wildcard decides the LIKE relation |
| Like.LikeExactly | src/query/like.js:19-40 | The matcher decides LIKE for every pattern exactly on values without a percent sign, or with one at the very end while underscore is disabled |
| Like.NotPlainCounterexample | src/query/like.js:19-40 | For every other value, a pattern that LIKE accepts and the matcher rejects |
| Like.NewWildcardCovers | src/query/like.js:26-30 | Forgetting earlier wildcards loses nothing: what they could still match, the newest one matches |
| Like.NothingLater | src/query/like.js:31-40 | When the value is used up, no later wildcard position can match either |
| SqlLexer.SQLLexer.Tokenize | src/query/parser.js:203-233 | The token loop yields the token sequence of the input, closed by EOF |
| SqlLexer.SQLLexer.ReadString | src/query/parser.js:124-145 | A quoted literal up to its closing quote, each doubled quote standing for one; unterminated literals end with the input |
| SqlLexer.SQLLexer.ReadIdentifier | src/query/parser.js:242-253 | A dotted name folded into a slash path, stopping at a dot that no word follows |
| SqlPieces.LexShift | src/query/parser.js:93-279 | Lexing does not depend on what stands before the current position |
| SqlPieces.QuotedValueLexes | src/browser/fylo.js:183-194 | Any string, quoted by doubling, lexes to one STRING token equal to it and leaves the text behind it to be lexed as if alone |
| SqlPieces.UndoubledReadsExactly | src/query/parser.js:777-780 | The undoubled quoting of the printer reads back, before anything but a quote, exactly when the string holds no quote, or stands at the end of the text with its only quote as its last character |
| SqlPieces.LexPieces | src/query/parser.js:93-279 | A text of lexemes separated by blanks or commas lexes to exactly their tokens, and what follows them as if it stood alone |
| SqlParser.SQLParser.ParseWhereClause | src/query/parser.js:368-401 | The loop over the clause's conditions builds the conjunctions and stops where the specification does, with its error otherwise |
| SqlParser.SQLParser.ParseSelectStatement | src/query/parser.js:422-457 | The parser's result is the specified query or the specified error for every token sequence |
| SqlWhere.LoopTakesOr | src/query/parser.js:368-401 | The flat loop collects exactly the AND groups of a recursive-descent reading with AND binding tighter than OR |
| SqlWhere.PutKeeps | src/query/parser.js:382-385 | Storing a condition replaces what was at its column and operator and keeps everything else |
| SqlWhere.MergeKeeps | src/query/parser.js:382-385 | A merged entry holds exactly the conditions not replaced by a later one of their group |
| SqlWhere.WhereMeaning | src/query/parser.js:368-401 | The operations accept the same token sequences as the reference grammar, never reject a valuation of the comparisons the SQL condition admits, and agree with it on every one when no conjunction repeats a column and operator with another value |
| SqlWhere.MeaningKeptExactly | src/query/parser.js:368-401 | They agree with the SQL condition on every valuation of the comparisons exactly when every merged group still asks for all the conditions of some group |
| SqlWhere.OneChainKeptExactly | src/query/parser.js:382-385 | For a clause without OR that is: no condition is overwritten by a different one |
| SqlRows.ChainKeptOnRowsExactly | src/query/parser.js:382-385 | On rows with values, whatever values and comparisons are, an AND chain keeps its meaning exactly when some column's remaining conditions cannot be met at all, or every condition follows from what remains of the conditions on its own column |
| SqlRows.PairKeptExactly | src/query/parser.js:382-385 | Two comparisons of one column by one operator with numbers keep their meaning, although only the second is kept, exactly when the second number tightens the first |
| SqlRows.OverwriteLosesCondition | src/query/parser.js:382-385 | "a > 5 AND a > 1" keeps only the second comparison and lets the row through whose a is 3 |
| SqlPrint.PiecesPrinted | src/query/parser.js:759-796 | The printed statement is the text of its lexemes, in order |
| SqlPrint.ConjunctionFlat | src/query/parser.js:768-787 | The nested joins of the printer give one AND chain over all conditions |
| SqlPrint.OpsFlat | src/query/parser.js:768-787 | Several conjunctions print as one AND chain over all their conditions |
| SqlRoundTrip.PrintedLexes | src/query/parser.js:759-796 | The printed statement lexes to the tokens of its lexemes |
| SqlRoundTrip.Refilled | src/query/parser.js:368-401 | Parsing a printed conjunction fills it again, entry by entry, in the same order |
| SqlRoundTrip.PrintedReadsBack | src/query/parser.js:759-796 | A query of plain names and readable literals, whatever its conjunctions, reads back as one conjunction of all its conditions, later ones replacing earlier ones of the same column and operator |
| SqlWeights.LexWeighs | src/query/parser.js:93-279 | Whatever each character weighs, the tokens of a text weigh no more than the text, up to one quote never closed |
| SqlBudget.WhereWeighs | src/query/parser.js:368-401 | The tokens of a parsed WHERE clause weigh at least as much as its conjunctions would, printed with OR between them |
| SqlBudget.TightStep | src/query/parser.js:382-385 | When the tokens weigh hardly more than the conjunction that comes out, no condition overwrote another |
| SqlBalance.Balance | src/query/parser.js:759-796 | A query that comes back from its own text weighs no more, with its ORs and dotted names as they would be read, than it does printed |
| SqlExact.ParseUndoesPrintExactly | src/query/parser.js:759-796 | For every query, whatever its names and strings hold: parsing what toSQL prints gives it back exactly when it has at most one conjunction with each column and operator once, one-word unreserved names, unsigned numbers, no string with a quote except as the last character of the text's last string, a limit other than 0, and asks for identifiers only by selecting _id |
| SqlExact.DisjunctionIsLost | src/query/parser.js:786 | No query with several conjunctions ever comes back |
| SqlExact.OrKeepsTheLast | src/query/parser.js:786 | Two values of one column joined by OR read back as the second comparison alone |
| SqlExact.SlashesAndSignsAreLost | src/query/parser.js:774-781 | A query with a slash in a column or a minus in front of a number never comes back |
| IndexKeys.Indexer.WalkFields | crates/fylo-query/src/index.rs:52-84 | The entries added are exactly the keys of every leaf, and the walk succeeds exactly when every lookup value could be computed |
| IndexKeys.Indexer.AddValue | crates/fylo-query/src/index.rs:86-140 | The equality, numeric, forward, reversed and trigram keys of one leaf, and nothing else |
| IndexKeys.Trigrams | crates/fylo-query/src/index.rs:270-280 | The trigrams of the first 512 characters |
| IndexKeys.KeysOfAppend | crates/fylo-query/src/index.rs:62-84 | Keys are per leaf: those of a document are the union over its parts |
| Uri.EncodeUriComponent | crates/fylo-query/src/index.rs:282-298 | The byte loop computes the percent-encoding of the UTF-8 bytes |
| Uri.EncodeIsPrefixCode | crates/fylo-query/src/index.rs:282-298 | One encoded text is a prefix of another exactly when the texts are: no prefix ends inside an escape or a multi-byte character |
| Uri.EncodeInjective | crates/fylo-query/src/index.rs:282-298 | Different texts encode differently |
| Uri.EncodeAlphabet | crates/fylo-query/src/index.rs:282-298 | An encoded text never contains the key separator |
| IndexLookups.ScanPrefixSelects | crates/fylo-query/src/index.rs:157-188 | A key scan for a text selects a stored token exactly when the text is a prefix of the stored value |
| IndexLookups.TextLookupsAreExact | crates/fylo-query/src/index.rs:113-138 | For strings whose encoding fits the limit, prefix and suffix scans select exactly the strings with that prefix or suffix, and every substring's trigrams are indexed |
| IndexLookups.SubstringGrams | crates/fylo-query/src/index.rs:270-280 | The trigrams of a substring are trigrams of the string |
| IndexLookups.EscapeKeepsParts | crates/fylo-query/src/index.rs:190-206 | The separator escape maps prefixes to prefixes, suffixes to suffixes and parts to parts |
| Hexadecimal.HexOrder | crates/fylo-query/src/index.rs:251-259 | Fixed-width hexadecimal text sorts as the numbers do |
| SortKeys.AbsValueGrows | crates/fylo-query/src/index.rs:251-259 | Larger magnitude bits mean a larger absolute value, across exponents and subnormals (section 3.4 of IEEE 754-2019) |
| SortKeys.SortableOrder | crates/fylo-query/src/index.rs:251-259 | The bit transformation orders doubles by value, with -0 just below +0 |
| SortKeys.NumericKeysOrder | crates/fylo-query/src/index.rs:251-264 | Forward keys order finite doubles as numbers and reversed keys the other way round; equal keys come from equal bits only |
| IndexPlan.PlanEqualityCandidates | crates/fylo-engine/src/lib.rs:964-1049 | A plan exists exactly for plannable queries and lists, in order, exactly the documents selected by some operation through all of its conditions' scans |
| IndexPlan.FindWithAccess | crates/fylo-engine/src/lib.rs:1260-1319 | The records returned are the scan's or the plan's: those matching, allowed and within the limit, in identifier order |
| IndexPlan.PlanIsKept | crates/fylo-engine/src/lib.rs:1271-1280 | A plan is the subsequence of all identifiers that the scans select; every candidate is a live document |
| PlanCollections.ScannedExactly | crates/fylo-engine/src/lib.rs:1001-1049 | The scan planned for an equality names a document exactly when one of its leaves is indexed at that path under the operand's token, or lies below what the prefix spells |
| PlanCollections.PlannedEqualsScanExactly | crates/fylo-engine/src/lib.rs:1260-1319 | For one collection, any plannable query, limit and actor: the planned answer is the scan's exactly when every record the scan returns is reached through all conditions of some operation |
| PlanCollections.StoredTextSuffices | crates/fylo-engine/src/lib.rs:1271-1274 | If every document meeting a condition holds at its path a scalar of the operand's stored text, planned and full evaluation return the same records in the same order for every query, limit and actor, numbers, Booleans and null included |
| PlanExact.HoldingIsScanned | crates/fylo-engine/src/lib.rs:1271-1274 | A document that meets an exact equality condition is selected by that condition's scan |
| PlanExact.ExactQueriesLoseNothing | crates/fylo-engine/src/lib.rs:1271-1274 | For queries whose operands equal only values of the same stored text, planned and full evaluation return the same records in the same order, for every limit and actor |
| PlanExact.PlannedEqualityExactly | crates/fylo-engine/src/lib.rs:1271-1274 | For an operation of equalities on different fields, and every limit, planned and full evaluation agree on every collection exactly when all its operands are such values |
| PlanExact.InexactOperandLoses | crates/fylo-query/src/lib.rs:628-654 | For any other operand among them, a collection of one document that the full evaluation returns and the planned one does not |
| PlanExact.AssumptionsCanBeMet | crates/fylo-query/src/lib.rs:628-654 | An engine and a collection that meet the assumptions of these results together |
| IndexSnapshot.Validate | crates/fylo-query/src/lib.rs:123-167 | The order check of validation accepts a text exactly when its non-blank lines strictly ascend |
| IndexSnapshot.FindFirstKeyAtOrAfter | crates/fylo-query/src/lib.rs:761-787 | The loop over raw text computes the halving by whole lines |
| IndexSnapshot.FirstIsFound | crates/fylo-query/src/lib.rs:761-787 | On a sorted text it lands on a line start, with every line above sorting before the prefix and the line there not |
| IndexSnapshot.ScanOne | crates/fylo-query/src/lib.rs:244-275 | The scan loop collects the identifiers from there up to the first line without the prefix |
| IndexSnapshot.ScanIsComplete | crates/fylo-query/src/lib.rs:244-275 | On a sorted text this gives what looking at every line gives, in the same order |
| IndexSnapshot.SnapshotImplementsScan | crates/fylo-query/src/lib.rs:244-275 | The search of a file that lists an index's keys returns the identifiers of the planner's abstract scan, each once |
| IndexSnapshot.SortedExactly | crates/fylo-query/src/lib.rs:123-167 | A text is sorted in that sense exactly when validation accepts it and no blank line stands below a key |
| SnapshotExact.ScanCollectsVisited | crates/fylo-query/src/lib.rs:244-275 | On any text the scan returns the identifiers of the lines it visits |
| SnapshotExact.SearchesCompleteExactly | crates/fylo-query/src/lib.rs:761-787 | Every prefix search of an accepted file visits all its keys exactly when no blank line the halving looks at has a key above it within the bounds, and none stands between two keys that begin alike |
| IndexSnapshot.BlankLineHidesKey | crates/fylo-query/src/lib.rs:138-141 | An accepted text with a blank line in which the search loses a key |
| IndexSnapshot.Scan | crates/fylo-query/src/lib.rs:184-205 | Several constraints: the first gives the order, the others filter |
| IndexSnapshot.ScanIntersects | crates/fylo-query/src/lib.rs:184-205 | An identifier is returned exactly when every constraint's scan returns it |
| Frames.ReadFrame | crates/fylo-machine/src/lib.rs:2081-2117 | For every division of the stream into chunks: the next frame verbatim if it fits the limit, else flagged and dropped through its LF, with the rest of the stream untouched |
| Frames.Session.HandleFrame | crates/fylo-machine/src/lib.rs:343-445 | One frame moves its response from what is to come to what is written, or ends the session with the output complete |
| Frames.Session.Serve | crates/fylo-machine/src/lib.rs:315-320 | What a session writes is a function of the bytes alone |
| Frames.ResponsesAreAnswers | crates/fylo-machine/src/lib.rs:343-445 | Without a startup error the responses are those to the pieces of the stream split on LF, in order, resuming after every bad frame that has its LF |
| Frames.OneResponsePerFrame | crates/fylo-machine/src/lib.rs:343-445 | One response per non-empty piece |
| Frames.StartupErrorEndsSession | crates/fylo-machine/src/lib.rs:343-445 | A startup error replaces the response to the first well-formed request and ends the session there |
| Pages.FillPage | crates/fylo-machine/src/lib.rs:2745-2790 | The page holds the rows from the cursor's position up to the page length, and a row is reported oversized exactly when it is the first and does not fit |
| Pages.PageLengthIsLongest | crates/fylo-machine/src/lib.rs:2745-2790 | That length is the longest run whose UTF-8 text fits the byte budget and the item limit |
| Pages.FitsShorter | crates/fylo-machine/src/lib.rs:2745-2790 | Every shorter page fits as well, so stopping at the first misfit is right |
| Pages.SortRowsSorts | crates/fylo-machine/src/lib.rs:2729-2740 | The snapshot is a sorted permutation of the result rows |
| Pages.Session.Paginate | crates/fylo-machine/src/lib.rs:1306-1407 | The whole new session state and the reply, for each kind of request and each error |
| PageRuns.FaithfulPreserved | crates/fylo-machine/src/lib.rs:1306-1407 | Every request keeps every cursor faithful: delivered rows are those of its snapshot before its position |
| PageRuns.CursorsDeliverSnapshots | crates/fylo-machine/src/lib.rs:1306-1407 | However requests interleave, a live cursor has delivered a prefix of its first-page snapshot, and an ended one all of it or exactly the rows before one that cannot fit alone |
| PageRuns.LogGrows | crates/fylo-machine/src/lib.rs:1306-1407 | Snapshots never change, delivered rows only grow, endings are final |
| PageRuns.PagesFitAndAdvance | crates/fylo-machine/src/lib.rs:2745-2790 | Every page fits its budget and limit, and one with a continuation is not empty |
| PageRuns.TokenInjective | crates/fylo-machine/src/lib.rs:1306-1407 | Cursor tokens of one process never repeat |
| JsonText.JsonValueEnd | clients/rust/fylo.rs:725-773 | The stack loop computes the specified end of a value or its error |
| JsonText.JsonStringEnd | clients/rust/fylo.rs:709-723 | The end of a string literal, escapes skipped |
| JsonScan.ValueSkipped | clients/rust/fylo.rs:725-773 | Inside a container, a printed value is stepped over with the bracket stack unchanged |
| JsonScan.ValueEndIsExact | clients/rust/fylo.rs:725-773 | The scanner stops exactly at the end of a printed value, before any text for strings and containers and before a delimiter or the end for bare literals |
| JsonFields.JsonObjectField | clients/rust/fylo.rs:775-806 | The member loop computes the specified slice or error |
| JsonFields.ObjectFieldIsExact | clients/rust/fylo.rs:775-806 | On a printed object the slice is the printed value of the first member of that name, and a missing member is an error |
| JsonFields.JsonArrayValues | clients/rust/fylo.rs:808-830 | The element loop computes the specified slices or error |
| JsonFields.ArrayValuesAreExact | clients/rust/fylo.rs:808-830 | On a printed array the slices are the printed elements, in order |
| JsonDecode.DecodeJsonString | clients/rust/fylo.rs:836-896 | The decoding loop computes the specified string or error |
| JsonDecode.EverySpellingDecodes | clients/rust/fylo.rs:836-896 | Every way section 7 of RFC 8259 allows to spell a string (raw, short escapes, hexadecimal in either case, surrogate pairs) decodes to it |
| JsonDecode.DecodeUndoesQuote | clients/rust/fylo.rs:950-966 | Decoding undoes the client's own quoting for every string |
| Base64.EncodeBase64Url | crates/fylo-engine/src/encryption.rs:339-360 | The chunk loop computes the encoding |
| Base64.DecodeBase64Url | crates/fylo-engine/src/encryption.rs:398-410 | Alphabet rewriting, padding and the quartet loop compute the decoding |
| Base64.DecodeBase64 | crates/fylo-engine/src/encryption.rs:412-449 | The quartet loop, an error for a length that is no multiple of four |
| Base64.RoundTrip | crates/fylo-engine/src/encryption.rs:339-449 | Decoding undoes encoding for every byte sequence |
| Base64.EncodedLength | crates/fylo-engine/src/encryption.rs:339-360 | Output lengths of section 5 of RFC 4648 with padding omitted |
| Base64.UnpaddedAcceptedExactly | crates/fylo-engine/src/encryption.rs:398-460 | An unpadded text decodes exactly when its symbols are in the alphabets and its length is not 1 modulo 4 |
| Encryption.UnescapeEscape | crates/fylo-engine/src/encryption.rs:306-313 | Unescaping undoes escaping exactly on texts without a literal %2F |
| Encryption.RestoredExactly | crates/fylo-engine/src/encryption.rs:381-387 | A stored scalar comes back exactly when it is no string, or one that neither holds %2F nor is JSON text |
| Encryption.Encryptor.EncodeValue | crates/fylo-engine/src/encryption.rs:264-296 | Every scalar at a declared path is sealed, everything else is unchanged, and a failure means that a nonce could not be drawn |
| Encryption.OpenValue | crates/fylo-engine/src/encryption.rs:239-262 | The decoding walk, with the first failure |
| Encryption.ValueRoundTrip | crates/fylo-engine/src/encryption.rs:239-296 | Decoding an encoded valid value never fails and gives it back exactly when each sealed scalar is restorable at a path both walks name alike |
| Encryption.DocumentRoundTrip | crates/fylo-engine/src/encryption.rs:66-116 | A document survives encryption and decryption exactly when its members do, or, with nothing declared, when no string looks like ciphertext |
| Encryption.RestorableDocumentsRoundTrip | crates/fylo-engine/src/encryption.rs:66-116 | Named members and restorable strings suffice |
| Encryption.EmptyNameStaysSealed | crates/fylo-engine/src/encryption.rs:298-304 | Below a member with an empty name the encoder seals what the decoder leaves sealed |
| Encryption.LawsCanBeMet | crates/fylo-engine/src/encryption.rs:66-116 | Collaborators that meet the assumed laws together, for every list of valid declarations |
| Overlay.OverlayFilesystem.WriteBytes | src/browser/fsa-filesystem.js:115-118 | The whole new overlay state and error of a write |
| Overlay.OverlayFilesystem.AppendBytes | src/browser/fsa-filesystem.js:119-123 | The same for an append, base content copied up first |
| Overlay.OverlayFilesystem.RemovePath | src/browser/fsa-filesystem.js:124-131 | The same for a removal, the layer's error swallowed |
| Overlay.OverlayFilesystem.MovePath | src/browser/fsa-filesystem.js:132-137 | The same for a move |
| Overlay.OverlayFilesystem.MakeParents | src/browser/core/memory-filesystem.js:209-221 | The parent loop of the memory layer, stopping at a file |
| Overlay.StepRefines | src/browser/fsa-filesystem.js:111-137 | Each operation a plain file system allows succeeds and changes the visible tree as it would there |
| Overlay.RunRefines | src/browser/fsa-filesystem.js:41-142 | Over every such run the overlay shows exactly the plain tree seeded with the base |
| OverlayExact.StepAgreesExactly | src/browser/fsa-filesystem.js:111-137 | For every operation, allowed in a plain file system or not: the overlay carries it out or refuses it and shows the same tree exactly when it is allowed, or refused by the layer too (or stopped by a base directory or a missing source) without bringing a removed base file back, or moves onto itself a file the base holds unchanged |
| OverlayExact.RunAgreesExactly | src/browser/fsa-filesystem.js:41-142 | Over every run of operations whatever, each step agrees with the plain file system seeded with the base exactly when every operation is of that kind where it happens |
| OverlayExact.RefusedWriteRestores | src/browser/fsa-filesystem.js:115-118 | Removing a base file, writing below its path and then to it: the last write is refused, yet the base's file shows again beside the directory |
| Overlay.ListShowsWhatExists | src/browser/fsa-filesystem.js:76-94 | A listing names exactly the entries that exist |
| Overlay.MoveOntoItselfReverts | src/browser/fsa-filesystem.js:132-137 | Moving a file onto itself brings the base's content back, or loses the file |
| OverlayExact.SelfMoveExactly | src/browser/fsa-filesystem.js:132-137 | Moving a visible file onto itself succeeds and changes nothing exactly when the base holds the same bytes there |
| Overlay.WriteAcceptedExactly | src/browser/core/memory-filesystem.js:237-243 | A write succeeds exactly when the layer alone has room; the base's directories and files are not consulted |
| Shards.CandidatesAre | crates/fylo-storage-native/src/lib.rs:2811-2830 | No directory is tried twice, the canonical one first, and those tried are exactly those of the recorded widths and the two fallbacks |
| Shards.ShardCandidates | src/core/shard.js:77-87 | The pushing loop computes that list, with the engine's extra fallback or without |
| Shards.LifecycleKeepsShards | src/core/shard.js:47-50 | Adding a lifecycle segment changes neither a record's shard nor its candidates |
| Shards.StepKeeps | crates/fylo-storage-native/src/write.rs:842-904 | Announcing, renaming, pruning, committing, forgetting, each single restore of a recovery and creating keep every record among its candidates, now and after a rollback |
| Shards.Collection.RecoverLocked | crates/fylo-storage-native/src/write.rs:1416-1449 | Restoring the before-images one record after the other gives the state before the transaction, each intermediate state keeping the invariant |
| Shards.Collection.ReshardCollection | crates/fylo-storage-native/src/write.rs:842-904 | A finished reshard has moved every record and remembers no other width; one cut off after any rename records what it leaves and can be undone |
| Shards.AlwaysFound | crates/fylo-machine/src/lib.rs:1009-1017 | Over any sequence of interrupted, recovered and resumed reshards to any widths every record is found where it lies, by the engine's candidates and by the script core's |
| Shards.FoundOrReinstated | crates/fylo-storage-native/src/write.rs:2574-2618 | At every moment of every run a record is found where it lies or is about to be put back, and is found then |
| Shards.RawFoundExactly | crates/fylo-storage-native/src/lib.rs:1433-1470 | A raw file is found exactly when no directory tried before its own exists |
| Shards.InterruptedReshardHidesRawFile | crates/fylo-storage-native/src/lib.rs:1433-1470 | After the first rename of a two-file reshard the other raw file is reported missing |
| Shards.CompletedIsCanonical | crates/fylo-storage-native/src/write.rs:901-902 | After completion every record is in its canonical directory and both lookups find it |
| Schema.MaterializeDocument | crates/fylo-engine/src/schema.rs:220-275 | The version loop computes the specified document or error |
| Schema.MaterializeIsIdempotent | crates/fylo-engine/src/schema.rs:220-275 | A materialized document is at the head, and materializing it again changes nothing |
| Schema.StampedExactly | crates/fylo-engine/src/schema.rs:261-274 | The result carries the head's stamp exactly when it was upgraded or came with it |
| Schema.StagesCompose | crates/fylo-engine/src/schema.rs:266-274 | Upgrading to an intermediate head and later to a new one equals upgrading at once, if the document at the intermediate head carries no version field of the upgraders' own |
| Schema.StampsBreakStages | crates/fylo-engine/src/schema.rs:266-274 | With an upgrader that returns one, the two ways differ |
| Lease.Host.Acquire | crates/fylo-storage-native/src/lease.rs:61-125 | An undisturbed acquisition is refused exactly when an enforced lock is held on the sentinel, and otherwise owns the root |
| Lease.LostForever | crates/fylo-storage-native/src/lease.rs:155-174 | A lease once overwritten is never confirmed again, in any run |
| Lease.LeaseIsExclusive | crates/fylo-storage-native/src/lease.rs:61-125 | With enforcement and no replacement of the sentinel, in every run at most one lease is held at any moment, and it is always confirmed |

## Left out

- Collaborators known by laws only: AES-GCM, PBKDF2 and HMAC (`Encryption.CipherLaws`), the JSON
  text of scalars (`Encryption.JsonLaws`), number formatting and coercion
  (`PlanExact.NumberLaws`; `PlanExact.AssumptionsCanBeMet` and `Encryption.LawsCanBeMet` show that
  the laws can be met), JavaScript upgraders (a function argument of `Schema.Materialize`).
- Clocks, randomness and process identifiers are arguments: the page expiry time, the nonce
  draws, the process id in cursor tokens.
- Journal.Enabled: models one writer at a time, as the collection write lock enforces it; the lock
  itself, attribute captures and queue records are not modelled.
- Documents.Number: stands for the finite doubles by their signed magnitude bits; zero and minus
  zero are one number.
- Recovery.TransactionsAreAtomic: excludes failures after the commit marker, for which
  Recovery.AtomicFromMarkerExactly says when it holds.
- StableRead.ReadStable: says nothing about a result read at the saturated last generation, for
  which StableRead.SaturatedWrite shows that no snapshot can be promised.
- PageRuns.CursorsDeliverSnapshots: assumes fewer requests than the 64-bit token sequence has
  numbers, so that it does not wrap around.
- IndexPlan.FindWithAccess: assumes that reading a listed document succeeds and that the index
  holds exactly the keys of the live documents; scan limits and read errors are not modelled.
- IndexSnapshot.ScanOne: size limits, match limits and the check for forbidden bytes are not
  modelled, and text stands for bytes, as index keys are ASCII.
- PlanExact.PlannedEqualityExactly: for one operation on fields whose names hold no separator;
  where several operations are given, one of them may cover what another loses, and
  PlanCollections.PlannedEqualsScanExactly covers every path and query on a given collection.
- SortKeys.NumericKeysOrder: for finite doubles; NaN and infinities have no documents.
- SqlParser.Parse: SELECT statements only; joins, INSERT, UPDATE, DELETE and projections after
  parsing are not modelled, tokens carry no position, compared numbers stay the text that was lexed
  and `parseInt` is exact.
- SqlWhere.SameMeaning: a row is a truth value for every comparison; rows with values are in
  SqlRows, for clauses without OR.
- Like.Matcher, SqlLexer.Lex: JavaScript texts are UTF-16 code units, a character of the model is a
  scalar value; an underscore against half of a surrogate pair is not covered.
- SqlExact.ParseUndoesPrintExactly: for queries of the seven operators with strings, numbers,
  Booleans and null; other operators, which the printer writes as `=`, and array or object operands
  are not modelled.
- JsonText.ValueEnd: the scanners are modelled on characters, not on UTF-8 bytes; the delimiters
  they look for are ASCII, so a byte inside a longer character is never one of them.
- Encryption.Encryptor.EncodeValue: the in-place rewriting of a tree is modelled on values; a
  missing key, the schema files and the blind index are not modelled.
- Base64.DecodeQuartet: accepts unused bits that are not zero, as the code does; nothing is said
  about two texts that decode to the same bytes.
- Overlay.Perform: `mkdir`, `rmdir`, sizes and times are not modelled; paths are taken as
  normalized, and a listing is a set of names.
- Shards.FindDocument: a record is one file that lies in one directory; the rebuilt index, the
  `.deleted` namespace and file contents are not modelled.
- Lease.Host.Acquire: one undisturbed acquisition; the interleavings of several are in
  Lease.Apply.  Reading the record's file is one step.
- Client process handling, HTTP and command-line layers, the queue, file import and export,
  merge and restore, permission bits, browser workers: plumbing around the parts above.
