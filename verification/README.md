# BranchBase: a verified model

BranchBase gives every Git branch its own database, routes client connections to the database of the checked-out
branch, and gates risky migrations. This project models its concurrent, parsing and naming core in Dafny and proves what
the code keeps over every input and every run. `dafny verify dfyconfig.toml` checks all of it.

| files | what they model |
|---|---|
| `KeyedLock`, `Provisioning`, `Connections` | the per-key lock, just-in-time provisioning, admission limit and shutdown of the proxy |
| `Bytes`, `PgWire`, `MySqlWire`, `Handshake` | the startup packets of both protocols, their rewriting, and what reaches the backend |
| `SqlTokens`, `SqlScan`, `SqlStrip`, `SqlNormalize`, `SqlSplit` | the comment stripper, the policy normaliser and the statement splitter |
| `SqlDrops`, `CriticalText` | what stripping removes and keeps, and which texts are always critical, told character by character |
| `Risk`, `Report`, `Signature`, `RiskCache` | the heuristic classifier, the policy decision, cache keys, and analysis with a cache |
| `BranchNames`, `DatabaseNames`, `Like`, `Prune`, `SqliteCopy` | branch and database identity, listing patterns, pruning, and the SQLite copy marker |
| `Text`, `Wrappers` | Go's `strings` package as far as it is used; optional values and results |

## How to read it

* **Concurrency** is a step system: one step per mutex section, channel operation or driver call, any number of callers,
  any interleaving, every fallible call free to fail. `Reached` says that a state is the end of some run, and the results
  are about every reached state. In `KeyedLock` the code itself is a class whose sections are the steps of the system
  (`Abs() == Apply(old(Abs()), ...)`); in `Provisioning` the class `Server` carries out `ensureBranchExists` and stays
  within the reachable states.
* **Loops** of the source are methods with loops, proved equal to a recursive specification; the theorems are about the
  specification. The two SQL scanners share one notion of token (`SqlTokens.Lex`: what is dropped, what is kept whole), the
  handshake rewriter an independent parser and printer of `Protocol::HandshakeResponse41`, the sanitiser the words of a name.
* **Text** is a sequence of `char` that stands for bytes; white space and letter case are ASCII.
* A handler is *live* while it holds a slot. Its goroutine may outlive that by the moment it needs to report to the WaitGroup.
* SHA-256 is an injective function with hexadecimal results (`Signature.IsHash`; `HashesExist` shows that this can be met).
  Identifiers in signatures are plain words. Every ask for a table's metadata may fail on its own (`RiskCache.Answers`: one
  possible answer per operation); metadata comes under the name that was asked for.

## Where the code differs from what one would expect

* The cache can show. A table whose introspection failed is asked for again at its next operation, so the table that answers
  first need not be the one named first; drops in tables that were not found are judged by the first to answer, and the
  sorted signatures do not record which that was (internal/risk/analyzer.go:115-136). `RiskCache.LateAnswerMisleads` is a
  migration of four statements for which the cache says HIGH and an analysis without it CRITICAL.
  `RiskCache.CacheTransparentIff` gives the exact condition, `IsMisled`, in terms of what one analysis has found;
  `RiskCache.NeverMisled` two simple reasons why it does not occur, and `RiskCache.AnswersAgreeApartFromKeys` what a cached
  answer gets right in any case.
* A request to encrypt or cancel that comes behind an answered request is rewritten like a startup message, with its code where
  the version belongs, and so is any packet with such a code but another length (internal/proxy/proxy.go:552-615). The
  backend then gets a message of at least 20 bytes that is neither the client's request nor a proper StartupMessage.
  `Handshake.SecondSslRequest` is the shortest such script; `Handshake.CodeReachesBackend`, `RequestScripts` and `CodeScripts`
  say exactly which scripts do this.
* The PostgreSQL splitter never leaves a dollar quote (internal/risk/parser.go:196-205): its search for the closing tag starts
  on the '$' itself. `SqlSplit.DollarQuoteSwallowsCut` is the text `$$a$$;b`, which stays one statement;
  `SqlSplit.SplitStrippedPostgres` says exactly when the splitter still cuts at the unquoted semicolons.
* The policy normaliser unfolds dollar quotes in every dialect, the stripper knows them in PostgreSQL only.
  `SqlNormalize.NormAfterStripNeedsNoDollars` is a MySQL text on which they disagree.
* Without `base_database` the drivers use "myapp_dev" while routing uses the empty name:
  `DatabaseNames.RoutingIsProvisioning` is an equivalence for that reason.
* With a blank default branch, two local branches named like a default branch (`main`, `master`, `default`) pass the
  uniqueness check and share the base database: `DatabaseNames.MainAndMasterShare`, and exactly then
  `DatabaseNames.UniqueIsIsolated`.
* Pruning announces the databases it lists and drops the databases of the listed names. A database comment may name another
  branch: `Prune.UnannouncedDrop`. `Prune.DropsWhatIsListed` says exactly when the two are the same.
* The level-raising loops behind the classifier (internal/risk/analyzer.go:201-228) never change a level:
  `RiskCache.HighAlready`.

## Model

| member | source | states |
|---|---|---|
| KeyedLock.KeepsInvariant | internal/proxy/keyed_mutex.go:28-53 | every section of every caller keeps: live callers work on the entry in the map, counters count their users, a locked entry has exactly one holder |
| KeyedLock.ReachedInvariant | internal/proxy/keyed_mutex.go:28-53 | the invariant holds after every interleaving of any number of callers |
| KeyedLock.MutualExclusion | internal/proxy/keyed_mutex.go:28-38 | at most one caller holds a key |
| KeyedLock.EntryCountsCallers | internal/proxy/keyed_mutex.go:30-36 | a key has an entry exactly while somebody is inside, and refCount is the number of those callers |
| KeyedLock.EmptyIffIdle | internal/proxy/keyed_mutex.go:45-50 | the map is empty exactly when nobody is inside: entries do not leak |
| KeyedLock.UnlockTakesEffectOnce | internal/proxy/keyed_mutex.go:40-52 | a call of the unlock function has an effect exactly while its own caller holds the key; repeated calls change nothing and release nobody else |
| KeyedLock.LeaveSparesOthers | internal/proxy/keyed_mutex.go:45-50 | deleting an entry never removes one that another caller works on |
| KeyedLock.KeyedMutex.Enter | internal/proxy/keyed_mutex.go:29-36 | Lock's section under mu is the step Enter of the system |
| KeyedLock.KeyedMutex.Acquire | internal/proxy/keyed_mutex.go:38 | taking the entry's mutex and making the unlock function is the step Acquire |
| KeyedLock.KeyedMutex.Unlock | internal/proxy/keyed_mutex.go:40-43 | a call of the unlock function is the step Unlock, and goes on exactly when the flag of sync.Once was not set |
| KeyedLock.KeyedMutex.Leave | internal/proxy/keyed_mutex.go:45-50 | the decrement with the deletion at zero is the step Leave |
| KeyedLock.KeyedMutex.KeyCount | internal/proxy/keyed_mutex.go:56-60 | the number of keys; zero exactly when no caller is inside |
| Provisioning.KeepsInvariant | internal/proxy/proxy.go:335-383 | every step keeps: one call per branch in the critical section, cache within the databases, CreateBranch only for missing branches |
| Provisioning.CreatedAtMostOnce | internal/proxy/proxy.go:366-376 | in every run CreateBranch succeeds at most once per branch and is never called for a branch that exists, even if failed calls leave databases behind |
| Provisioning.ProvisionedExist | internal/proxy/proxy.go:378-382 | everything remembered as provisioned exists, and so does the branch of every call that returned nil |
| Provisioning.DatabasesGrow | internal/proxy/proxy.go:366-376 | no database is lost, and every new one was asked for by a CreateBranch call |
| Provisioning.FailsOnlyWithTheDriver | internal/proxy/proxy.go:335-383 | in every run a finished call has returned nil exactly when none of its own driver calls failed |
| Provisioning.EntryIffInLock | internal/proxy/proxy.go:349-352 | a lock entry exists exactly while some call is between locking and the deferred unlock of its branch |
| Provisioning.Server.EnsureBranchExists | internal/proxy/proxy.go:335-383 | alone on its branch, a call returns nil exactly when the branch is cached, exists or is created, and records it then; its effect is a run of the system |
| Provisioning.Server.Provision | internal/proxy/proxy.go:366-382 | the driver calls: which are made, what each outcome leaves behind |
| Connections.KeepsInvariant | internal/proxy/proxy.go:190-248 | every step keeps: slots and WaitGroup equal what occupies them, active connections are those of handlers, a finished stop is final |
| Connections.AtMost256 | internal/proxy/proxy.go:311-323 | occupied slots are the live handlers and the one being admitted, never more than 256 |
| Connections.AdmittedBelowLimit | internal/proxy/proxy.go:311-318 | an accepted client gets a slot exactly when fewer than 256 are taken, and is turned away otherwise |
| Connections.LoopEndsForAReason | internal/proxy/proxy.go:286-309 | the accept loop ends only on a stop, a missing listener or a cancelled context |
| Connections.ActiveBelongsToLive | internal/proxy/proxy.go:413-435 | a registered connection belongs to a handler that still has its slot and will close it |
| Connections.ReleaseNeverBlocks | internal/proxy/proxy.go:422 | on every exit path the deferred calls can go on until the slot is returned |
| Connections.StopLeavesNothing | internal/proxy/proxy.go:190-226 | when the Stop call that set stopped has returned there is no handler, no occupied slot, no active connection and no accept loop, then or later |
| Connections.OneStopDrains | internal/proxy/proxy.go:191-199 | the server is stopped exactly when one Stop call has set it so; all others return at once |
| PgWire.ReadTakesOnePacket | internal/proxy/pgwire/pgwire.go:99-121 | a read succeeds exactly on a framed packet of 8 to 10240 bytes and takes that packet and nothing else |
| PgWire.ValidateDatabaseIdentifier | internal/proxy/pgwire/pgwire.go:53-70 | accepts exactly the names of 1 to 63 bytes without control characters, slashes and backslashes, and gives the first error otherwise |
| PgWire.ParseStartupMessage | internal/proxy/pgwire/pgwire.go:124-153 | the loop over the split parts computes the parameter map, later pairs replacing earlier ones |
| PgWire.SplitJoins | internal/proxy/pgwire/pgwire.go:139 | splitting at zero bytes cuts at all of them and loses nothing |
| PgWire.LastPairWins | internal/proxy/pgwire/pgwire.go:140-147 | a key has a value exactly when a pair with it comes before the first empty key, and it is that of the last such pair |
| PgWire.RewriteDatabase | internal/proxy/pgwire/pgwire.go:156-191 | succeeds exactly for a packet of at least 8 bytes and a name of 1 to 63 good bytes; the result then encodes the client's message with the database replaced, in some order of the keys |
| PgWire.MessageRoundTrip | internal/proxy/pgwire/pgwire.go:124-191 | parsing an encoded message gives the message back, whatever the order of the parameters |
| PgWire.RewriteRoundTrip | internal/proxy/pgwire/pgwire.go:156-191 | the rewritten packet has the same protocol version and the same parameters with only "database" replaced |
| PgWire.RewriteLength | internal/proxy/pgwire/pgwire.go:168-188 | the length field is the real length, at least 20 and at most 75 more than the original packet |
| PgWire.CodeNumbers | internal/proxy/pgwire/pgwire.go:13-19 | comparing a packet's code byte by byte is comparing the big-endian number with 80877103, 80877104 or 80877102 |
| MySqlWire.FrameRoundTrip | internal/proxy/mysqlwire/mysqlwire.go:69-83 | a written packet is read back exactly, whatever follows, if and only if its length fits three bytes |
| MySqlWire.ReadPacketIff | internal/proxy/mysqlwire/mysqlwire.go:47-66 | a read succeeds exactly on a whole frame with at most one megabyte of payload, and takes that frame and nothing else |
| MySqlWire.ForwardVerbatim | internal/proxy/mysqlwire/mysqlwire.go:86-95 | forwarding writes exactly the bytes it takes off the source |
| MySqlWire.ValidateDatabaseIdentifier | internal/proxy/mysqlwire/mysqlwire.go:108-122 | accepts exactly the names of 1 to 64 bytes without the refused characters |
| MySqlWire.FlagBits | internal/proxy/mysqlwire/mysqlwire.go:13-36 | the flags that the parser tests are the bits 0x8, 0x200, 0x800, 0x8000 and 0x200000 of the little-endian number |
| MySqlWire.WithDBFlags | internal/proxy/mysqlwire/mysqlwire.go:237-240 | setting CONNECT_WITH_DB changes no other flag |
| MySqlWire.ParseThenEncode | internal/proxy/mysqlwire/mysqlwire.go:130-221 | the independent parser accepts only well-formed responses, and printing them gives the bytes back |
| MySqlWire.EncodeThenParse | internal/proxy/mysqlwire/mysqlwire.go:130-221 | every well-formed response is read back from its encoding |
| MySqlWire.SkipLenenc | internal/proxy/mysqlwire/mysqlwire.go:159-197 | the cursor over length-encoded auth data stops where the parser does, and fails when it does, never reading out of range |
| MySqlWire.SkipAuth | internal/proxy/mysqlwire/mysqlwire.go:158-213 | the cursor over each of the three forms of auth data agrees with the parser |
| MySqlWire.RewriteHandshakeResponseDatabase | internal/proxy/mysqlwire/mysqlwire.go:125-250 | for every payload: the specified error, or the encoding of the same response with CONNECT_WITH_DB and the target database |
| MySqlWire.RewriteSucceedsIff | internal/proxy/mysqlwire/mysqlwire.go:125-250 | the rewriter succeeds exactly for a good name and a payload that encodes some response with the bit 0x200 |
| MySqlWire.RewriteTouchesOnlyDatabase | internal/proxy/mysqlwire/mysqlwire.go:219-249 | a parser reads the result as the same flags plus CONNECT_WITH_DB, same header, user, auth data and trailing bytes, with the target as database |
| MySqlWire.LastRewriteWins | internal/proxy/mysqlwire/mysqlwire.go:219-249 | rewriting twice equals rewriting once with the last target, byte for byte |
| MySqlWire.RewriteFixedPoint | internal/proxy/mysqlwire/mysqlwire.go:219-249 | a packet is left unchanged exactly when it already names the target |
| MySqlWire.RewriteLength | internal/proxy/mysqlwire/mysqlwire.go:219-249 | a rewritten payload is at most 65 bytes longer |
| MySqlWire.RewrittenFrame | internal/proxy/mysqlwire/mysqlwire.go:37-83 | the frame of every rewritten packet decodes to that packet and sequence id, whatever follows |
| Handshake.StartupIffStarts | internal/proxy/proxy.go:537-598 | without faults the packet that is rewritten is the one a grammar of the client's bytes designates: optional GSSENCRequest, optional SSLRequest, packet |
| Handshake.CancelIff | internal/proxy/proxy.go:543-550 | a CancelRequest is forwarded exactly when it is the first packet |
| Handshake.FaultsOnlyStop | internal/proxy/proxy.go:552-598 | a failing reply, TLS handshake or deadline only ends the negotiation |
| Handshake.HandlePostgres | internal/proxy/proxy.go:537-622 | what is sent to the backend and whether the connection is piped, for every outcome of the negotiation |
| Handshake.FailClosed | internal/proxy/proxy.go:537-622 | for every client script, TLS or not, and every fault: the backend receives nothing, the verbatim CancelRequest, or the packet that the client's bytes designate with its database replaced by the target, never an SSLRequest or GSSENCRequest of eight bytes |
| Handshake.PostgresDelivers | internal/proxy/proxy.go:537-622 | without faults every client whose bytes designate a packet is connected: the whole message for the target database is sent, with the packet's other parameters, and the connection is piped |
| Handshake.VersionKept | internal/proxy/pgwire/pgwire.go:170-174 | the version field of the rewritten packet is the client's, byte for byte |
| Handshake.CodeReachesBackend | internal/proxy/proxy.go:552-615 | the message that begins a piped connection carries a request code exactly when the packet designated by the client's bytes does |
| Handshake.RequestScripts | internal/proxy/proxy.go:552-598 | a request is rewritten exactly when it comes behind an answered GSSENCRequest or SSLRequest |
| Handshake.CodeScripts | internal/proxy/proxy.go:552-598 | a code is sent on exactly by those scripts and by packets with the code but not the request's length |
| Handshake.SecondSslRequest | internal/proxy/proxy.go:567-615 | two SSLRequests in a row without TLS give the backend a message with the code of an SSLRequest as its version |
| Handshake.HandleMySql | internal/proxy/proxy.go:492-534 | the MySQL backend receives nothing or one frame with the rewritten response, and is piped only after all of it |
| Handshake.MySqlDelivers | internal/proxy/proxy.go:492-534 | a client that answers with a handshake response without the SSL bit is connected: the rewritten response is sent in one frame |
| Handshake.MySqlFailClosed | internal/proxy/proxy.go:492-534 | that frame is read whole by any peer, names the target database and does not ask for SSL |
| SqlStrip.StripCommentsAndTransactionsForEngine | internal/risk/parser.go:47-164 | the index loop removes exactly the dropped tokens, with a space where one is needed |
| SqlTokens.EngineNames | internal/risk/parser.go:48-49 | which engine names mean which dialect, in any letter case |
| SqlDrops.TextIsShaped | internal/risk/parser.go:57-163 | a text is cut into whole comments, dropped exactly where their openers stand, and kept pieces: single characters, quoted strings up to their closing quote, dollar quotes up to the first repetition of their tag |
| SqlDrops.DroppedIsComment | internal/risk/parser.go:57-119 | a line comment ends at its newline, a block comment at its closer (balanced under PostgreSQL) or with the text |
| SqlDrops.KeptIsPiece | internal/risk/parser.go:121-161 | what each kept piece is, character by character |
| SqlDrops.StripKeepsPieces | internal/risk/parser.go:51-164 | everything but the comments is kept whole and in order, with at most a space for each comment |
| SqlDrops.LineCommentStrips | internal/risk/parser.go:58-69 | a line comment in front is removed up to its newline, and the rest stripped as if it stood alone |
| SqlDrops.BlockCommentStrips | internal/risk/parser.go:84-113 | a closed block comment in front is removed and nothing behind it |
| SqlStrip.StripNoDrops | internal/risk/parser.go:47-164 | nothing is left to strip: removals form no new comment, quote or dollar tag |
| SqlStrip.StripIdempotent | internal/risk/parser.go:47-164 | stripping a stripped text changes nothing, for every text and dialect |
| SqlScan.SkipNested | internal/risk/parser.go:86-101 | the loop over nested comments stops where the recursive definition says |
| SqlScan.ScanQuote | internal/risk/parser.go:136-159 | the quote loop stops behind the closing quote, over doubled quotes and backslash escapes |
| SqlScan.ScanDollar | internal/risk/parser.go:121-135 | finds the closing tag of a dollar quote, or that there is none |
| SqlTokens.LexSource | internal/risk/parser.go:57-163 | the tokens joined are the text, and each is well formed |
| SqlTokens.NoDollarCharacter | internal/risk/parser.go:121-135 | a text without '$' has no dollar quotes |
| SqlNormalize.SqlForPolicyMatchingForEngine | internal/risk/policy.go:149-268 | the loop with its recursion into dollar bodies terminates and computes the normal form |
| SqlNormalize.NormFlat | internal/risk/policy.go:149-268 | the normal form depends on words only: every removal may be read as a space |
| SqlNormalize.NormAfterStrip | internal/risk/policy.go:149-268 | normalising a stripped text equals normalising the text: all texts under PostgreSQL, all without dollar quotes elsewhere |
| SqlNormalize.NormAfterStripNeedsNoDollars | internal/risk/policy.go:149-268 | a MySQL text with dollar quotes on which the scanners disagree |
| SqlNormalize.MatchesAlwaysCriticalForEngine | internal/risk/policy.go:139-147 | the loop finds the first pattern that occurs in the normal form, or none |
| CriticalText.CodeIsCritical | internal/risk/policy.go:139-147 | a text with the words of a pattern in sequence outside comments and quotes, in any letter case, with any white space and comments between them and anything before and behind, is always critical |
| CriticalText.DollarBodyIsCritical | internal/risk/policy.go:149-268 | a text with a dollar quote whose body is always critical is always critical |
| CriticalText.HiddenIsNotCritical | internal/risk/policy.go:139-147 | a text without dollar quotes in which each pattern has a word that stands in comments and quoted strings only is not always critical |
| SqlNormalize.CriticalAfterStrip | internal/risk/policy.go:139-147 | the always-critical verdict is the same on a text and on its stripped form |
| SqlSplit.SplitStatementsForEngine | internal/risk/parser.go:172-263 | the loop with its quote flags returns the trimmed, non-ignored segments in order |
| SqlSplit.StatementsAreSegments | internal/risk/parser.go:244-273 | every segment that is not blank and not a bare transaction statement is returned, in order, and nothing else |
| SqlSplit.SegmentsConserve | internal/risk/parser.go:190-260 | the segments joined by semicolons rebuild the text, in every engine |
| SqlSplit.SplitStripped | internal/risk/parser.go:190-260 | outside PostgreSQL the splitter cuts every stripped text at exactly the semicolons that the stripper sees outside quotes |
| SqlSplit.SplitAtCode | internal/risk/parser.go:190-260 | the same for every comment-free text, and under PostgreSQL when no '$' stands outside quotes |
| SqlSplit.DollarNeverCloses | internal/risk/parser.go:193-208 | once in a dollar quote the splitter makes no further cut |
| SqlSplit.SplitStrippedPostgres | internal/risk/parser.go:190-260 | under PostgreSQL it cuts at exactly the unquoted semicolons if and only if none follows the first place where it enters a dollar quote |
| SqlSplit.DollarQuoteSwallowsCut | internal/risk/parser.go:193-208 | `$$a$$;b` stays one segment although its semicolon is outside quotes |
| SqlSplit.SplitBeforeDollar | internal/risk/parser.go:190-260 | with tags of any length it cuts right when no semicolon at all follows the first '$' outside quotes |
| Risk.Classify | internal/risk/heuristic.go:32-243 | both loops compute the verdict: highest level, or of the flags, last category and last word on reversibility |
| Risk.CheckReferences | internal/risk/heuristic.go:98-113 | whether an inbound foreign key refers to the dropped column, by the table's metadata or else the first table's |
| Risk.HighestBounds | internal/risk/heuristic.go:268-273 | no operation is above the level |
| Risk.HighestAttained | internal/risk/heuristic.go:268-273 | the level is LOW or that of an operation |
| Risk.LevelReached | internal/risk/heuristic.go:64-237 | which statements make a migration CRITICAL, at least HIGH and at least MEDIUM |
| Risk.FlagsReached | internal/risk/heuristic.go:64-237 | which statements make it destructive, and which take an exclusive lock |
| Risk.TouchesReached | internal/risk/heuristic.go:95-113 | it touches foreign keys exactly when some drop does by the metadata it is judged by |
| Risk.ReversibleReached | internal/risk/heuristic.go:176-178 | it is irreversible exactly when a drop or truncation has no CREATE TABLE behind it |
| Risk.OrderIndependent | internal/risk/heuristic.go:64-237 | the same operations in any order and number give the same level, destructive, foreign-key and lock fields |
| Risk.Concatenation | internal/risk/heuristic.go:64-237 | two lists of operations together give the higher level and the or of the flags |
| Risk.DropsAreCritical | internal/risk/heuristic.go:68-85 | a dropped or truncated table makes the migration CRITICAL and destructive |
| Report.EvaluateReport | internal/risk/analyzer.go:244-275 | the loop gives the highest effective level with its action, and blocks when one migration blocks |
| Report.SummaryUnique | internal/risk/analyzer.go:244-275 | the summary depends on the set of migrations only |
| Report.DefaultBlocks | internal/risk/policy.go:271-310 | under the default policy blocked, level CRITICAL and action block are the same thing |
| Report.DefaultActions | internal/risk/policy.go:271-310 | the action for each level and confidence under the default policy, with the escalation below 75% |
| Report.CriticalBlocks | internal/risk/policy.go:271-310 | one CRITICAL migration blocks the report at any confidence |
| Signature.SortIff | internal/risk/introspect.go:168-178 | two lists sort alike exactly when they hold the same strings |
| Signature.FormatSchemaSignature | internal/risk/introspect.go:160-182 | the loop and the sorting hash the text of the table |
| Signature.SignatureIff | internal/risk/introspect.go:160-182 | signatures are equal exactly for the same table name, columns and linked columns, in any order |
| Signature.KeyInputInjective | internal/risk/cache.go:29-35 | text and signature can be told apart in a key's input, because signatures hold no colon |
| Signature.CacheKeyIff | internal/risk/cache.go:29-35 | cache keys are equal exactly for the same text and the same table signatures, in any order |
| RiskCache.Introspect | internal/risk/analyzer.go:115-136 | the loop asks for a table at each of its operations until an ask succeeds; the first answer of all becomes firstMeta |
| RiskCache.RaiseLevel | internal/risk/analyzer.go:201-228 | the two loops behind the classifier change no level |
| RiskCache.HighAlready | internal/risk/analyzer.go:201-228 | because the operations they look for are HIGH or worse already |
| RiskCache.Cache.Get | internal/risk/cache.go:72-84 | returns the stored verdict, if there is one |
| RiskCache.Cache.Set | internal/risk/cache.go:87-102 | stores the verdict under its key and nothing else |
| RiskCache.Analyzer.AnalyzeSQL | internal/risk/analyzer.go:92-241 | the answer and the new cache, for every cache, file and choice of failing asks |
| RiskCache.KeyTables | internal/risk/analyzer.go:138-143 | equal keys mean the same text and tables that no verdict can tell apart |
| RiskCache.SameTablesSameKey | internal/risk/analyzer.go:132-143 | the order in which the tables answered leaves no trace in the key |
| RiskCache.KeyDecides | internal/risk/analyzer.go:138-147 | equal keys give the same verdict when drops in missing tables are judged by the first table named |
| RiskCache.CanonicalIff | internal/risk/heuristic.go:95-133 | an analysis gives that verdict exactly when it is not misled |
| RiskCache.AnswerCoherent | internal/risk/analyzer.go:142-238 | an analysis that is not misled answers as without a cache and keeps the cache coherent |
| RiskCache.CacheIsTransparent | internal/risk/analyzer.go:142-238 | in every run of analyses that are not misled, from an empty cache, with any schema changes and failing asks in between, every answer is the one without a cache |
| RiskCache.CacheTransparentIff | internal/risk/analyzer.go:115-238 | an analysis is answered as without a cache after all such runs if and only if it is not misled |
| RiskCache.MisledIsAnsweredWrongly | internal/risk/analyzer.go:115-238 | every misled analysis is answered wrongly after one that finds the same tables at once |
| RiskCache.LateAnswerMisleads | internal/risk/analyzer.go:115-147 | four statements, one of which drops a column of a missing table: cached HIGH, uncached CRITICAL |
| RiskCache.NeverMisled | internal/risk/analyzer.go:115-129 | no analysis is misled in which no table answers late, or every table with a drop is found |
| RiskCache.AnswersAgreeApartFromKeys | internal/risk/analyzer.go:142-238 | in every run at all, cached and uncached answers agree on reversible, destructive, lock and category, and on the rest exactly when they agree on foreign keys |
| RiskCache.UncachedIsClassified | internal/risk/analyzer.go:168-233 | without a cache the answer is the classifier's verdict, with level CRITICAL and destructive for an always-critical text |
| RiskCache.AlwaysCriticalIsCritical | internal/risk/analyzer.go:229-233 | in every run at all, the answer for an always-critical text that is not excluded is CRITICAL and destructive, cached or not |
| RiskCache.AlwaysCriticalBlocks | internal/risk/analyzer.go:229-275 | and it blocks every report it is in under the default policy |
| RiskCache.DropAlwaysBlocks | internal/risk/analyzer.go:92-275 | in every run at all, a file that is not excluded and drops or truncates a table blocks every report it is in under the default policy, cached or not |
| BranchNames.SanitizeIsNames | internal/git/resolver.go:117-126 | sanitising gives the name's letter-and-digit words in lower case, joined by underscores, or "default" |
| BranchNames.SanitizeIdempotent | internal/git/resolver.go:117-126 | sanitising a sanitised name changes nothing |
| BranchNames.CollisionIff | internal/git/resolver.go:117-126 | two branches collide exactly when they have the same words but for case |
| DatabaseNames.DriverParamsForConfig | cmd/branchbase/main.go:417-446 | a driver built from the parameters sees the configured base database and default branch, or its own defaults |
| DatabaseNames.RoutingIsProvisioning | internal/config/config.go:172-185 | routing and the driver name the same database for every branch and default branch, exactly when a base database is configured |
| DatabaseNames.DatabaseOfBranch | internal/config/config.go:172-185 | the base database for the default branch or, without one, for the usual names; for every other branch the base name, an underscore and its words |
| DatabaseNames.SharedDatabase | internal/config/config.go:172-185 | exactly when two branches have the same database |
| DatabaseNames.ValidateBranchNameUnique | internal/git/resolver.go:131-147 | the loop accepts exactly the branches whose sanitised name no other local branch has |
| DatabaseNames.UniqueIsIsolated | internal/git/resolver.go:131-147 | an accepted branch shares its database with no other, except, exactly, in the case of a blank default branch and several usual default names |
| DatabaseNames.MainAndMasterShare | internal/config/config.go:176-180 | with a blank default branch `main` and `master` are both accepted and both have the base database |
| DatabaseNames.IsolatedIsUnique | internal/git/resolver.go:131-147 | a branch with a database of its own is never refused |
| Like.EscapeIsPerCharacter | internal/driver/postgres/postgres.go:239-244 | the three replacements in sequence escape each character once |
| Like.PatternIsExact | internal/driver/postgres/postgres.go:356-361 | the pattern matches exactly the names that start with the base name and an underscore |
| Prune.LookupIsSanitized | cmd/branchbase/main.go:714-729 | looking a name up raw or sanitised is the same as a test on sanitised names |
| Prune.SelectCandidates | cmd/branchbase/main.go:731-753 | the loop selects the candidates of the set specification, in order, and sums their sizes |
| Prune.CandidateIff | cmd/branchbase/main.go:734-752 | exactly which listed databases are candidates and why; without local branches nothing is orphaned |
| Prune.DroppedIff | cmd/branchbase/main.go:797-803 | exactly which databases are dropped, for all failures |
| Prune.Server.DeleteBranch | internal/driver/postgres/postgres.go:317-342 | drops the branch's database and no other, and never the base database |
| Prune.RunPrune | cmd/branchbase/main.go:731-805 | the databases afterwards: those before without the dropped ones, or all of them when not confirmed |
| Prune.NeverDropped | cmd/branchbase/main.go:731-805 | no dropped database is the base database, the active branch's or an unmerged local branch's, for all listings and failures |
| Prune.NeverDropsRouted | cmd/branchbase/main.go:731-805 | the same in terms of the databases that the proxy routes to |
| Prune.DropsWhatIsListed | internal/driver/postgres/postgres.go:382-387 | deleting a listed branch drops the database it was listed with exactly when the sanitised name is the rest of that database's name |
| Prune.DropsWereAnnounced | cmd/branchbase/main.go:762-803 | when all listed names fit, every dropped database was announced |
| Prune.UnannouncedDrop | cmd/branchbase/main.go:797-803 | two databases with mixed-up comments: one is announced, the other dropped |
| SqliteCopy.KeepsInvariant | internal/driver/sqlite/sqlite.go:152-204 | every file operation of every process, and every crash, keeps: markers have one holder, unmarked targets are complete |
| SqliteCopy.UnmarkedIsComplete | internal/driver/sqlite/sqlite.go:152-204 | a target without its marker is a completed, verified copy |
| SqliteCopy.OneCopier | internal/driver/sqlite/sqlite.go:168-182 | at most one process has a target reserved and copies into it |
| SqliteCopy.CreateSucceeds | internal/driver/sqlite/sqlite.go:184-204 | when CreateBranch returns nil its target is a verified copy, unless a DeleteBranch removed it since its copy began |
| SqliteCopy.ExistingTargetIsRefused | internal/driver/sqlite/sqlite.go:161-167 | a CreateBranch that finds its target changes nothing and returns an error |
| SqliteCopy.MarkedTargetIsRefused | internal/driver/sqlite/sqlite.go:168-172 | so do a CreateBranch and a DeleteBranch that find the copy marker |
| SqliteCopy.OnlyOwnTarget | internal/driver/sqlite/sqlite.go:152-271 | no step changes another target's file or marker |
| SqliteCopy.FailedCreateLeavesNothing | internal/driver/sqlite/sqlite.go:187-202 | a CreateBranch that fails after its reservation leaves no target behind |

## Left out

- Sockets, TLS itself, timeouts, logging, byte piping, the error packets sent to clients, configuration files, the CLI around `runPrune`, and live SQL: I/O or libraries. Their outcomes are parameters (faults, failing driver calls, broken writes).
- Liveness: that Stop returns, and fairness of waiting callers.
- Connections.KeepsInvariant: the server's fields are parts of a value, not of an object, because the steps of all handlers interleave; what `closeActiveConns` closes is not recorded, as it changes no count.
- Provisioning.Server.EnsureBranchExists: describes a call that meets no other call on its branch; what a call returns among others is FailsOnlyWithTheDriver and ProvisionedExist, of the step system, on values. A server without a driver, which returns nil at once, is not modelled.
- SqliteCopy.KeepsInvariant: files are parts of a value; removals that clean up are assumed to succeed, and the source of a copy is assumed to be a whole database (CreateBranch does not look at the source's own marker). BranchExists, which reads twice without a lock, is not modelled.
- SqlSplit.SplitStrippedPostgres: the equivalence is for texts whose dollar-quote tags have at most 29 characters between the dollar signs, which is what the splitter's own search can see; behind a longer tag the splitter reads the quoted body as statements, and only the direction of SplitBeforeDollar is stated.
- CriticalText.CodeIsCritical: for patterns of words without quotes, white space and the characters `$`, `#`, `-`, `/`, `*`; the gaps hold white space and closed comments, not the delimiters of MySQL executable comments.
- CriticalText.HiddenIsNotCritical: for texts without dollar quotes, whose bodies are code (DollarBodyIsCritical).
- SqlNormalize.NormAfterStrip: outside PostgreSQL the absence of dollar quotes is sufficient, not necessary: the two normal forms of a text with dollar quotes may agree by chance of its words.
- Handshake.FailClosed: a request is recognised as the code does, by its code and a length field of 8; that the version field is that of a StartupMessage is not promised, as it does not hold (see CodeReachesBackend).
- MySqlWire.RewriteHandshakeResponseDatabase: 0xfb and 0xff as length bytes of the auth data mean 0 and 255, as in the code; error texts are reduced to their kind.
- PgWire.RewriteLength: the length field is compared for packets below 4 GB; the proxy never reads more than 10240 bytes.
- Statement classification by regular expressions and `rewriteDatabaseReference`: operations come classified, with what the expressions say of them as flags.
- RiskCache.CacheIsTransparent: for analyses that are not misled, as the equivalence says; for one engine, one policy and the heuristic classifier; file name, details, suggestion, flag texts and confidence are not compared, none of them is in the key. The remote classifier and its fallback, cache files on disk and path patterns are left out.
- Risk.OrderIndependent: says nothing of reversibility and category, which do depend on the order.
- Report.EvaluateReport: the actions of a policy are taken as parsed.
- DatabaseNames.ValidateBranchNameUnique: errors of Git end the check in the source and are not modelled.
- Like.PatternIsExact: for matching without collations; MySQL uses the same pattern with its default escape character.
- Prune.Server.DeleteBranch: the PostgreSQL driver also ends sessions on the database first; MySQL does not.
- Prune.SelectCandidates: sizes are added up without 64-bit wrap-around.
- SqlSplit.Segments: the splitter walks over runes and the model over bytes. Every character it compares is ASCII, so this shows in one place only: its search for the end of an opening dollar tag gives up after 30 runes, the model's after 30 bytes, and a region with multi-byte characters may be read differently.
