# Abigail: verified models of its core algorithms and protocols

Abigail is a desktop host for AI agents. Most of it is plumbing; these modules model the parts whose
correctness is not obvious, and prove what they are for. Each Dafny module follows one source file (or two that
belong together), in that file's own form: loops that update variables are methods with invariants, objects with
fields are classes, and each is proved against a specification function about which the main results are stated
for all inputs, all runs or all interleavings.

| module | what it is about |
|---|---|
| `KeyDetection`, `Masking`, `LateKeys` | six greedy patterns run one after another over the same text to mask API keys, what is shown of a key, and which keys come through |
| `MemoryGraphModel`, `DiscoveryOrder` | breadth-first traversal of the memory graph with a depth bound, and the order of its visits |
| `LineFraming` | cutting a chunked response stream into lines |
| `OpenEntity`, `OpenEntityAnswers` | the one-window-per-entity slot protocol, as interleaved steps of any number of calls, and what an answer says of the run |
| `Migration`, `MigrationReport` | the rerunnable import of legacy databases, with crashes after any single effect, and what a finished run leaves and reports |
| `Templates` | filling the soul template by successive text replacement |
| `LogCapture` | the bounded ring of log entries, and clients that poll it with a cursor |
| `Embeddings` | cosine similarity over the reals, with Cauchy-Schwarz |
| `ModelRegistry` | grouping and exporting the model catalogue |
| `Signing`, `Birth` | signed constitutional documents, and the first-run state machine that signs them |
| `PathGuard`, `GlobalConfig` | lexical paths, and the registry file |
| `Identity`, `IdentityDisk`, `DirTree` | the registry of agents, and what its operations do to the tree of directories on the disk |
| `Archive` | the byte layout of encrypted archives, and their import |
| `AgenticRuntime` | the life of agentic runs, between their engines, the events these send, and restarts |
| `RateLimit` | the cooldown guard |
| `Wrappers` | `Option`, `Result`, the order of a hash map, and the outcomes of an atomic write |

I/O that can fail is a parameter of the call that performs it, and so are clocks, random identifiers, the order in
which a hash map yields its keys and the way a ring buffer is split into two slices; the results hold for all of
their values. Cryptographic primitives are ideal.

## Where the code does less than its text says

Some promises hold only in part. The code is kept as it is, and the exact condition is proved.

- Redaction is described as hiding keys. A Google key has no dash in its fixed prefix, so what stays visible
  depends on where its first dash falls. From offset 35 on the key is shown in full, unless a match of another
  pattern, begun in the run of key characters before it, runs into it; `RedactedGoogleExactly` tells from the
  message alone which keys those are (`Leaks`), and by `GoogleAloneExactly` it is every late-dash key where no
  other pattern matches. Redacting again changes the text once more in exactly these cases (`IdempotentExactly`),
  and `LateDashKey` is one.
- The soul template's values are meant to be filled in place. They are exactly when no value holds a placeholder of
  a later field (`SoulInPlaceExactly`); a name that is a placeholder is filled in again (`SoulNameIsRescanned`).
- The import is meant to be rerunnable. It is, unless a later source is archived under the very name of the main
  legacy database; then a second run imports that file as the main database (`CrashesExact`, `SecondRunExact`,
  `RevivalExample`). The migration log entry of a run that dies is written by the next run exactly when an effect
  was still missing, so a crash between the last rename and the entry loses it (`LogSurvivesExactly`).
- Terminal run states are described as sticky. They are until the next restart (`EndedUntilRestart`). After one, a
  run is there exactly when the store can be read and has a record of it, and has the status of that record if
  that has ended and is failed otherwise (`EndSurvivesExactly`); so a run without a record, or one behind a torn
  write, is lost (`TornStoreLosesEnd`).
- `birth_complete` implies a recorded birth exactly when the flag was not set before the start, which does not look
  at it (`FlagImpliesRecordExactly`). One failed emergence uses up the signing key, so emergence never succeeds in
  that process (`FailedEmergenceIsFinal`). The older completion records a birth whatever it could sign
  (`CompletionVerifiesExactly`), and outside the last stage the soul can still be overwritten after it
  (`BornIsSettledExactly`).
- A backup's name is joined to `backups/` as it is, so a restore reaches any directory of the disk. What it
  moves leaves the directories of all identities alone exactly when the name does not lead into `identities/`
  (`RestoreTouchesExactly`); with `../identities/<hive>` it moves the Hive's own directory (`HiveCanBeMoved`). With
  `../global_settings.json` and a failing save the registry is lost, and the next start forgets all agents
  (`NextKeepsInv`, `RegistryCanBeTaken`, `LostRegistryForgetsAll`).
- An archive leaves the agent's directory in place without an agent exactly when the registry cannot be written or
  the move fails (`ArchiveAbandonsExactly`). A migration does not use up the legacy files, so a second one makes
  another agent exactly when nothing fails in it (`MigratedExactly`, `MigratingAgainExactly`).
- An exported catalogue needs a second round to settle exactly when some model has an empty displayed name over a
  non-empty id (`SecondRoundExact`).

## Model

| member | source | states |
|---|---|---|
| KeyDetection.FindFrom | crates/abigail-core/src/key_detection.rs:31 | the match found is the leftmost one at or after a position, and none is missed |
| KeyDetection.MatchIsInLanguage | crates/abigail-core/src/key_detection.rs:7-14 | what the matcher takes is a text of the pattern's language |
| KeyDetection.MatchIsGreedy | crates/abigail-core/src/key_detection.rs:7-14 | every text of the language at a position is a match there, and no longer than the one taken |
| KeyDetection.FindAllCovers | crates/abigail-core/src/key_detection.rs:31-33 | every place where a pattern matches lies in one of the successive non-overlapping matches |
| KeyDetection.SpliceWindow | crates/abigail-core/src/key_detection.rs:46-57 | a piece of the output without a mask character is a contiguous piece of the input that meets no replaced match but in its visible prefix |
| KeyDetection.WindowSurvives | crates/abigail-core/src/key_detection.rs:46-57 | conversely, every such piece of the input is a piece of the output |
| KeyDetection.MatchComesFromInput | crates/abigail-core/src/key_detection.rs:44-58 | a match in the output of a pass is a match of the input, letter by letter, that the pass kept |
| KeyDetection.PassLeavesExactly | crates/abigail-core/src/key_detection.rs:44-58 | after a pass any pattern matches exactly when one of its matches was clear of the replaced ones |
| KeyDetection.PassCreatesNoMatch | crates/abigail-core/src/key_detection.rs:44-58 | a pass never creates a match, for its own or any other pattern |
| KeyDetection.PassRemovesOwnExactly | crates/abigail-core/src/key_detection.rs:44-58 | a pass leaves a match of its own pattern exactly when one of its matches is shown in full |
| KeyDetection.NoMatchAfterPasses | crates/abigail-core/src/key_detection.rs:42-61 | after any list of passes no dash-prefixed pattern of the list matches anywhere |
| KeyDetection.DetectionsAreKeys | crates/abigail-core/src/key_detection.rs:27-37 | everything detected is a key of its provider that stands in the message |
| KeyDetection.DetectsNothingExactly | crates/abigail-core/src/key_detection.rs:27-37 | nothing is detected exactly when no pattern matches anywhere |
| KeyDetection.DetectApiKeys | crates/abigail-core/src/key_detection.rs:27-37 | the nested loops collect exactly the detections, pattern by pattern, in order |
| Masking.DetectsFirst | crates/abigail-core/src/key_detection.rs:27-37 | detection with one pattern takes the first text of its language, whole, and goes on with what is after it |
| Masking.DetectedInOrder | crates/abigail-core/src/key_detection.rs:7-37 | what is detected comes pattern by pattern, in the order of the table and under its providers |
| KeyDetection.RedactSecrets | crates/abigail-core/src/key_detection.rs:42-61 | the loop rewriting the text is the six passes, first to last |
| Masking.PassMasksFirst | crates/abigail-core/src/key_detection.rs:44-58 | a pass replaces the first text of its pattern, whole, by its first four characters, or by those up to four from its first dash on, and `***`, and goes on with the rest as with a text of its own |
| Masking.OnlyKeyIsMasked | crates/abigail-core/src/key_detection.rs:42-61 | a message with one key comes back with just that key cut down in this way |
| KeyDetection.RedactedHasNoDashedKey | crates/abigail-core/src/key_detection.rs:42-61 | in redacted text none of the five patterns with a dash in their prefix matches anywhere |
| KeyDetection.UndetectedIsUnchanged | crates/abigail-core/src/key_detection.rs:27-61 | text in which detection finds nothing is returned unchanged |
| KeyDetection.DetectedKeysAreRedacted | crates/abigail-core/src/key_detection.rs:27-61 | no detected key of a provider other than Google stands in the redaction |
| KeyDetection.GooglePassExact | crates/abigail-core/src/key_detection.rs:12-54 | the Google pass leaves a Google key exactly when one it found has its first dash at offset 35 or later |
| KeyDetection.GoogleAloneExactly | crates/abigail-core/src/key_detection.rs:42-61 | in a message that no other pattern matches, a Google key is left exactly when a detected one has its first dash at offset 35 or later |
| LateKeys.RedactedGoogleExactly | crates/abigail-core/src/key_detection.rs:42-61 | redacted text holds a Google key exactly when some key of the message has a late first dash and no pattern, in its turn, matches from the key characters before it on into it |
| LateKeys.IdempotentExactly | crates/abigail-core/src/key_detection.rs:42-61 | redacting twice is redacting once exactly when no key of the message is of that kind |
| LateKeys.RedactedIsKeyFreeExactly | crates/abigail-core/src/key_detection.rs:42-61 | no pattern at all matches in redacted text under exactly the same condition |
| KeyDetection.LateDashKeyStaysVisible | crates/abigail-core/src/key_detection.rs:49-54 | a concrete Google key comes out of the redaction in full |
| KeyDetection.RedactedHasNoKey | crates/abigail-core/src/key_detection.rs:42-61 | if every Google key found has its first dash early or not at all, no pattern matches in redacted text |
| KeyDetection.RedactedGoogleIsShownInFull | crates/abigail-core/src/key_detection.rs:42-61 | a Google match in redacted text is one that was shown in full |
| MemoryGraphModel.MemoryGraph.AddEdge | crates/abigail-memory/src/graph.rs:87-89 | an edge is added at the end |
| MemoryGraphModel.MemoryGraph.RemoveEdgesFor | crates/abigail-memory/src/graph.rs:140-143 | the edges at a memory are removed, in place |
| MemoryGraphModel.MemoryGraph.Traverse | crates/abigail-memory/src/graph.rs:113-137 | the queue loop terminates on every graph and visits the levels of the graph one after another |
| MemoryGraphModel.MemoryGraph.VisitEdges | crates/abigail-memory/src/graph.rs:124-133 | one turn of the loop marks and enqueues exactly the successors not seen before |
| MemoryGraphModel.LayerIsDistance | crates/abigail-memory/src/graph.rs:113-137 | the k-th level holds exactly the nodes at shortest distance k |
| MemoryGraphModel.TraversalIsExact | crates/abigail-memory/src/graph.rs:113-137 | the traversal visits exactly the nodes within the bound, each once, the start first |
| MemoryGraphModel.TraversalIsSorted | crates/abigail-memory/src/graph.rs:113-137 | nodes come in non-decreasing distance |
| MemoryGraphModel.TraversalExtends | crates/abigail-memory/src/graph.rs:113-137 | a traversal is a prefix of every deeper one |
| MemoryGraphModel.RemovalAvoids | crates/abigail-memory/src/graph.rs:140-143 | after a removal the paths left are those that avoid the removed memory |
| MemoryGraphModel.TraversalAfterRemoval | crates/abigail-memory/src/graph.rs:113-143 | a traversal after a removal visits exactly the nodes reachable within the bound by paths avoiding the removed memory |
| DiscoveryOrder.VisitsFollowFinds | crates/abigail-memory/src/graph.rs:92-137 | nodes are visited in the order of their first finds: by the node that found them first, in the order of the visits, and then by its edges, in the order of the list |
| DiscoveryOrder.EveryVisitIsFound | crates/abigail-memory/src/graph.rs:113-137 | every node after the start is first found by one visited before it |
| DiscoveryOrder.RemovalKeepsOrder | crates/abigail-memory/src/graph.rs:140-143 | a removal keeps every other edge, as often as it was there and in the old order |
| LineFraming.PullModelStreaming | tauri-app/src/ollama_manager.rs:479-550 | for every cutting of a stream into chunks, the progress is that of the non-empty trimmed lines of the whole stream, or of its ended lines if the stream breaks |
| LineFraming.DrainBuffer | tauri-app/src/ollama_manager.rs:529-536 | the inner loop emits the ended lines of the buffer and leaves its unterminated rest |
| LineFraming.JoinOfSplit | tauri-app/src/ollama_manager.rs:529-531 | splitting at newlines loses nothing and leaves no newline |
| LineFraming.SplitOfJoin | tauri-app/src/ollama_manager.rs:529-531 | splitting undoes joining |
| LineFraming.SplitOfConcat | tauri-app/src/ollama_manager.rs:522-537 | a stream read in two parts: the last piece of the first waits for the second |
| LineFraming.EndedLinesAreFinal | tauri-app/src/ollama_manager.rs:523-537 | what has been emitted when a stream breaks off is a prefix of what any continuation would have emitted |
| LineFraming.NewlineSeparates | tauri-app/src/ollama_manager.rs:529-541 | the lines around a newline are those before it and those after it |
| LineFraming.LastLine | tauri-app/src/ollama_manager.rs:539-541 | an unterminated last line is emitted unless it is blank |
| LineFraming.FramingKeepsVisible | tauri-app/src/ollama_manager.rs:522-541 | nothing but whitespace is lost, added or reordered |
| LineFraming.FramedLinesAreClean | tauri-app/src/ollama_manager.rs:530-541 | every line emitted is non-empty, trimmed and without a newline |
| OpenEntity.OpenEntities.TryInsert | hive-app/src/lib.rs:344-350 | the critical section inserts the entity and tells whether it was new |
| OpenEntity.OpenEntities.Forget | hive-app/src/lib.rs:106-110 | forgetting removes the entity |
| OpenEntity.Perform | hive-app/src/lib.rs:343-420 | the critical sections do to the shared set what the protocol's steps say, and only an insertion of a new entity goes on |
| OpenEntity.EffectOfNext | hive-app/src/lib.rs:338-423 | every step of an interleaving updates one call, takes a free slot for it or gives its own back |
| OpenEntity.RunKeepsInv | hive-app/src/lib.rs:338-423 | the invariant of the protocol holds after every interleaving of any number of calls and watchers |
| OpenEntity.SlotsAreExclusive | hive-app/src/lib.rs:343-420 | an entity is in the set exactly when one call holds its slot, so at most one Runtime child per entity is alive |
| OpenEntity.HistoryIsALock | hive-app/src/lib.rs:343-420 | acquisitions and releases read as one lock per entity, released only by its holder |
| OpenEntity.SkippedOnlyWhenHeld | hive-app/src/lib.rs:346-348 | a call returns without a window exactly when another holds the entity's slot |
| OpenEntity.SlotsAreBalanced | hive-app/src/lib.rs:366-420 | each call acquires at most once and has released as often, but for the slot it holds |
| OpenEntity.CallsAreBounded | hive-app/src/lib.rs:338-423 | no call with its watcher takes more than ten steps |
| OpenEntity.NotStuck | hive-app/src/lib.rs:338-423 | a call that is not done has a step of its own to take in any state |
| OpenEntity.QuietMeansReleased | hive-app/src/lib.rs:338-423 | when only new calls can happen, the set is empty and every acquisition was released by its own call |
| OpenEntityAnswers.StateIsTold | hive-app/src/lib.rs:338-423 | over every run the state of each call and its watcher is exactly what the steps it has taken say |
| OpenEntityAnswers.SuccessExactly | hive-app/src/lib.rs:343-423 | a call answers with success exactly when another held its slot or its child was launched |
| OpenEntityAnswers.ErrorExactly | hive-app/src/lib.rs:339-407 | it answers with an error exactly when the binary was not found, or the daemon refused or the launch failed, the slot was given back, and for a failed launch the daemon was asked to close |
| OpenEntityAnswers.CloseFollowsFailedLaunch | hive-app/src/lib.rs:396-407 | the daemon is asked to close after exactly the failed launches |
| OpenEntityAnswers.WatcherExactly | hive-app/src/lib.rs:409-420 | a call has a watcher exactly when it launched a child, so one that took its slot and succeeded has one |
| Migration.UpsertsMerge | crates/abigail-persistence/src/migration.rs:112-168 | a series of upserts merges its last rows into the store |
| Migration.UpsertsRedo | crates/abigail-persistence/src/migration.rs:112-168 | redoing a series of upserts after any part of it gives the same store |
| Migration.ImportsLandExactly | crates/abigail-persistence/src/migration.rs:98-168 | importing a database writes, for each of its tables, the last row of every id under that table and its scope, and nothing else |
| Migration.PlanSplits | crates/abigail-persistence/src/migration.rs:40-79 | a readable source is imported, archived, and the run goes on |
| Migration.RerunFrom | crates/abigail-persistence/src/migration.rs:28-87 | a run stopped after any effect and run again ends in the same store and files, from any source on |
| Migration.CrashesDoNotMatter | crates/abigail-persistence/src/migration.rs:28-87 | however often runs are stopped, one left to finish ends as a single uninterrupted run would |
| Migration.CrashesExact | crates/abigail-persistence/src/migration.rs:28-87 | stopping does no harm exactly when the run archives no file under the name of the main database |
| Migration.SecondRunExact | crates/abigail-persistence/src/migration.rs:28-87 | a further run imports nothing under exactly the same condition |
| Migration.RevivalExample | crates/abigail-persistence/src/migration.rs:354-367 | a main database named as the archived jobs file is a case where it fails |
| Migration.ReportCoversAll | crates/abigail-persistence/src/migration.rs:119-166 | every effect of a run is in its report once |
| MigrationReport.CountersAreNumbers | crates/abigail-persistence/src/migration.rs:119-166 | each counter of the report is the number of rows written to its table |
| MigrationReport.ReportExactly | crates/abigail-persistence/src/migration.rs:28-87 | the report of a finished run has for each table the number of its rows in the file that was there, and the sources imported, in order; a file is imported unless it is the main database's own and archived before its turn |
| MigrationReport.StoreExactly | crates/abigail-persistence/src/migration.rs:28-168 | after a finished run each key holds the last row of its id in its table of the file that was there, under that table's scope, or what it held before |
| Migration.ArchivedName | crates/abigail-persistence/src/migration.rs:354-367 | the archived name is the file's own with the suffix, and with one more dot when it has no extension |
| Migration.LogSurvivesExactly | crates/abigail-persistence/src/migration.rs:28-87 | after a crash at any effect the next run writes the log entry exactly when an effect was still missing |
| Migration.LegacyImport.ImportRows | crates/abigail-persistence/src/migration.rs:132-141 | the loop upserts and counts the rows, until the process dies |
| Migration.LegacyImport.ImportSource | crates/abigail-persistence/src/migration.rs:112-168 | each source's tables go to their scope in order |
| Migration.LegacyImport.MigrateSource | crates/abigail-persistence/src/migration.rs:48-53 | import, report, archive, with a crash possible after each effect |
| Migration.LegacyImport.MigrateLegacyLayout | crates/abigail-persistence/src/migration.rs:28-87 | the run ends in the world of its plan cut at the crash; it completes, fails at an unreadable source or dies under exact conditions, and logs exactly when it completes having imported something |
| Templates.ReplaceIsSubstitution | crates/abigail-core/src/templates.rs:333-338 | replacing a placeholder in the text is substituting the template's holes for it, whatever the value |
| Templates.SequentialIsNested | crates/abigail-core/src/templates.rs:327-339 | the four replacements expand the placeholders inside the values too, in field order |
| Templates.InPlaceExactly | crates/abigail-core/src/templates.rs:327-339 | filling is simultaneous substitution, whatever the later values are, exactly when no value holds a placeholder of a later field, unless its own field has no hole |
| Templates.SequentialIsSimultaneous | crates/abigail-core/src/templates.rs:327-339 | with inert values for the first three fields the replacements are simultaneous substitution; the mentor's name is free |
| Templates.PlaceholdersByName | crates/abigail-core/src/templates.rs:327-339 | each of the four placeholders, by its text, gets its own value |
| Templates.HarmlessBraces | crates/abigail-core/src/templates.rs:333-338 | a text whose braces are each followed by a letter that starts no field's name is inert |
| Templates.SoulInPlaceExactly | crates/abigail-core/src/templates.rs:178-231 | a soul document is filled in place for all later values exactly when no value holds a later placeholder |
| Templates.SoulNameIsRescanned | crates/abigail-core/src/templates.rs:178-231 | an entity named like the mentor's placeholder gets the mentor's name in its soul |
| Templates.SoulIsFilledInPlace | crates/abigail-core/src/templates.rs:178-231 | a soul document is the template's literals with each value at its own places |
| LogCapture.LogRing.Push | tauri-app/src/log_capture.rs:40-53 | a push appends under the next index, evicting the oldest entry when full, and keeps indices contiguous |
| LogCapture.LogRing.Since | tauri-app/src/log_capture.rs:55-71 | for every split of the buffer, the two slices are exactly the retained entries from the index on |
| LogCapture.LogRing.Clear | tauri-app/src/log_capture.rs:77-79 | clearing keeps the next index |
| LogCapture.FromIsDrop | tauri-app/src/log_capture.rs:61-70 | in a contiguous ring the entries from an index on are a suffix |
| LogCapture.PollingIsExact | tauri-app/src/log_capture.rs:40-83 | after any run of pushes, clears and polls each index is in exactly one of: seen (once, in order, unaltered), waiting, or lost before the client asked |
| LogCapture.NothingLost | tauri-app/src/log_capture.rs:40-83 | a client that lost nothing and has just polled has seen the whole log |
| Embeddings.CauchySchwarz | crates/abigail-memory/src/embeddings.rs:93-95 | the squared product is at most the product of the squares, with equality exactly for parallel vectors |
| Embeddings.SimilarityIs | crates/abigail-memory/src/embeddings.rs:88-102 | the similarity is the quotient for non-zero vectors of one length and 0 otherwise |
| Embeddings.SimilarityIsBounded | crates/abigail-memory/src/embeddings.rs:88-102 | the similarity lies in [-1, 1] for vectors of every length |
| Embeddings.SimilarityIsSymmetric | crates/abigail-memory/src/embeddings.rs:88-102 | the similarity is symmetric |
| Embeddings.SimilarityIgnoresScale | crates/abigail-memory/src/embeddings.rs:88-102 | positive scaling does not change it |
| Embeddings.SimilarityOneExact | crates/abigail-memory/src/embeddings.rs:88-102 | it is 1 exactly for positive multiples of a non-zero vector |
| ModelRegistry.Registry.LoadFromCatalog | crates/abigail-hive/src/model_registry.rs:67-104 | whatever the map order, listed providers get their models in order and their first timestamp, and the others stay |
| ModelRegistry.Registry.ToCatalog | crates/abigail-hive/src/model_registry.rs:107-124 | the export is the providers' entries in some order of the map |
| ModelRegistry.Registry.TotalModels | crates/abigail-hive/src/model_registry.rs:195-197 | the total is the sum over the providers, each once |
| ModelRegistry.HasModelExactly | crates/abigail-hive/src/model_registry.rs:182-187 | after loading, a model is there exactly when listed, or kept from an unlisted provider |
| ModelRegistry.LoadingKeepsTheTotal | crates/abigail-hive/src/model_registry.rs:67-104 | a fresh registry has as many models as the catalogue has entries |
| ModelRegistry.TotalIgnoresOrder | crates/abigail-hive/src/model_registry.rs:195-197 | the total does not depend on the order in which the map yields its providers |
| ModelRegistry.RoundRestores | crates/abigail-hive/src/model_registry.rs:67-124 | loading an export restores every non-empty provider: ids, order and timestamp, whatever the map order |
| ModelRegistry.SecondRoundExact | crates/abigail-hive/src/model_registry.rs:67-124 | a second round changes nothing exactly when no model has an empty displayed name over a non-empty id |
| ModelRegistry.ThirdRoundIsStable | crates/abigail-hive/src/model_registry.rs:67-124 | from the second round on nothing changes |
| Signing.SignableExactly | crates/abigail-core/src/document.rs:35-37 | two signed texts are equal exactly when name, tier and content are, or one name runs on into the other's tier and content |
| Signing.SignableIsInjective | crates/abigail-core/src/document.rs:35-37 | among names without the separator the signed text determines name, tier and content |
| Signing.SeparatorConfuses | crates/abigail-core/src/document.rs:35-37 | with the separator in a name, two documents share a signed text |
| Signing.SignableText | crates/abigail-core/src/document.rs:35-37 | the signed text of each tier |
| Signing.SignConstitutionalDocuments | crates/abigail-core/src/keyring.rs:299-321 | the documents are signed in order up to the first error, and earlier signatures stay |
| Signing.SignedIsAcceptedExactly | crates/abigail-core/src/keyring.rs:299-321 | after signing, complete or stopped, a document is accepted exactly when its turn came and its signature was written, or it was accepted before |
| Signing.SigningExactly | crates/abigail-core/src/keyring.rs:299-321 | signing succeeds exactly when all three documents are readable and their signatures can be written, and then the soul is accepted |
| Signing.Verifier.VerifySoul | crates/abigail-core/src/verifier.rs:48-101 | the loop accepts exactly when all three documents are accepted, and keeps them as found; otherwise it answers with the first thing wrong with the first document that is not |
| Signing.AcceptedIsSigned | crates/abigail-core/src/verifier.rs:60-101 | a document is accepted exactly when its signature was made by the key's owner for this name, tier and content |
| Birth.BirthOrchestrator.Generate | crates/abigail-birth/src/stages.rs:133-169 | generating an identity refines its step, failures included |
| Birth.BirthOrchestrator.Advance | crates/abigail-birth/src/stages.rs:177-211 | an advance enters the next stage from its own stage only |
| Birth.BirthOrchestrator.Crystallize | crates/abigail-birth/src/stages.rs:240-264 | crystallisation refines its step, failures included |
| Birth.BirthOrchestrator.Emerge | crates/abigail-birth/src/stages.rs:268-306 | emergence refines its step: the key is taken first |
| Birth.BirthOrchestrator.Complete | crates/abigail-birth/src/stages.rs:327-357 | the older completion refines its step |
| Birth.StagesGoUp | crates/abigail-birth/src/stages.rs:46-55 | no call goes back a stage or records more than one birth |
| Birth.OutOfStageIsRefused | crates/abigail-birth/src/stages.rs:133-299 | a call is refused for its stage exactly when it is out of it, and then changes nothing |
| Birth.SoulIsWrittenExactly | crates/abigail-birth/src/stages.rs:240-264 | only a crystallisation in one of its two stages writes a document, and only the soul; when it succeeds, and what it leaves |
| Birth.RunKeepsInv | crates/abigail-birth/src/stages.rs:96-357 | over every run a held key matches the public key on disk, the birth is recorded at most once, and the flag implies the record |
| Birth.FlagImpliesRecordExactly | crates/abigail-birth/src/stages.rs:96-116 | the flag implies the record over every run exactly when it was unset at the start |
| Birth.AtMostOneBirthEver | crates/abigail-birth/src/stages.rs:96-357 | over any number of processes, whatever fails and wherever they end, at most one birth is recorded, and the saved flag implies the record |
| Birth.BirthEndsAll | crates/abigail-birth/src/stages.rs:96-99 | once any process has recorded the birth, no later process changes anything |
| Birth.HeldKeyIsStable | crates/abigail-birth/src/stages.rs:133-264 | until a completion takes it, a held key stays the one held, shown and matched on disk over every run, however often an identity is asked for again |
| Birth.FirstRunGivesLife | crates/abigail-birth/src/stages.rs:96-306 | the whole first run, nothing failing, ends born with the written soul verifying under the generated key |
| Birth.EmergenceExactly | crates/abigail-birth/src/stages.rs:268-306 | exactly when emergence succeeds |
| Birth.EmergenceGivesLife | crates/abigail-birth/src/stages.rs:268-306 | a successful emergence leaves no key material, one recorded birth, and a soul that verifies under the key on disk |
| Birth.EmergenceIsForGood | crates/abigail-birth/src/stages.rs:96-357 | and so it stays, unchanged, over every later run and every later process |
| Birth.FailedEmergenceIsFinal | crates/abigail-birth/src/stages.rs:273 | after one attempt emergence never succeeds later |
| Birth.CompletionVerifiesExactly | crates/abigail-birth/src/stages.rs:327-357 | after the older completion, with or without a key and whatever fails, the soul verifies exactly when each document was signed in its turn or verified before |
| Birth.BornIsSettledExactly | crates/abigail-birth/src/stages.rs:177-357 | what a recorded birth left on disk stays over every later run exactly when it was recorded in the last stage |
| PathGuard.NormalizePath | crates/abigail-core/src/path_guard.rs:65-79 | the loop that pushes and pops is the walk of the path's components |
| PathGuard.NormalizeIsIdempotent | crates/abigail-core/src/path_guard.rs:65-79 | normalising is idempotent, and changes nothing exactly for plain paths |
| PathGuard.NormalizeComposes | crates/abigail-core/src/path_guard.rs:65-79 | a prefix may be normalised before a relative path is joined to it |
| PathGuard.EnsureRelativeNoTraversal | crates/abigail-core/src/path_guard.rs:22-41 | the loop accepts exactly the relative paths without `..` |
| PathGuard.ResolveExactly | crates/abigail-core/src/path_guard.rs:22-63 | a path is resolved exactly when relative and without `..`, to the root's normal form extended by its names, and which of the two is to blame otherwise |
| PathGuard.NoClimbStaysWithin | crates/abigail-core/src/path_guard.rs:50-63 | a relative path that never climbs above its start stays within any root |
| PathGuard.ClimbEscapes | crates/abigail-core/src/path_guard.rs:50-63 | one that leads above its start first stays within exactly when it leads back to where it came from |
| PathGuard.AgentDirectoryExactly | crates/abigail-core/src/global_config.rs:101-123 | a directory is accepted exactly when it normalises to identities/<id>, becomes that, and is then accepted as it is |
| GlobalConfig.Registry.RegisterAgent | crates/abigail-core/src/global_config.rs:73-79 | an entry is added exactly when its id is new |
| GlobalConfig.Registry.RemoveAgent | crates/abigail-core/src/global_config.rs:87-91 | the entries of an id are removed, and the answer tells whether there were any |
| GlobalConfig.Registry.NormalizeAgentDirectories | crates/abigail-core/src/global_config.rs:93-98 | directories are normalised in place up to the first that is refused |
| GlobalConfig.SavedLoadsBack | crates/abigail-core/src/global_config.rs:56-70 | what is saved loads back as written, holds only identity directories, and differs in nothing else |
| Identity.IdentityManager.CreateAgent | crates/abigail-identity/src/lib.rs:416-499 | creation refines its step, with each I/O failure |
| Identity.IdentityManager.UpdateAgentName | crates/abigail-identity/src/lib.rs:642-654 | the entry found first is renamed, never the Hive's |
| Identity.IdentityManager.DeleteAgent | crates/abigail-identity/src/lib.rs:930-955 | deletion refines its step, with each I/O failure |
| Identity.IdentityManager.ArchiveAgent | crates/abigail-identity/src/lib.rs:959-1011 | archiving refines its step, with each I/O failure |
| Identity.IdentityManager.RestoreBackup | crates/abigail-identity/src/lib.rs:1139-1233 | restoring refines its step, with each I/O failure |
| Identity.IdentityManager.MigrateLegacyIdentity | crates/abigail-identity/src/lib.rs:811-927 | migration refines its step, with each I/O failure |
| Identity.IdentityManager.Reopen | crates/abigail-identity/src/lib.rs:147-176 | a restart reads the file back and ensures the Hive's own entry |
| DirTree.ReachedIsNormalized | crates/abigail-core/src/path_guard.rs:65-79 | where a path joined to a directory leads, step by step, is its normal form |
| DirTree.SubOfGrafted | crates/abigail-identity/src/lib.rs:1167-1172 | putting a directory at a place changes nothing apart from it, and of what leads there only what lies in it |
| DirTree.SubOfPruned | crates/abigail-identity/src/lib.rs:949-952 | and so does taking one away |
| Identity.NextKeepsInv | crates/abigail-identity/src/lib.rs:147-1233 | every call, whatever fails in it, keeps ids distinct, the one Hive entry as it is, and each directory identities/<id>, in memory and on file, exactly unless it takes the registry's file away |
| Identity.RunKeepsInv | crates/abigail-identity/src/lib.rs:147-1233 | and so does every run of calls that do not name that file as a backup |
| Identity.RegistryCanBeTaken | crates/abigail-identity/src/lib.rs:1139-1172 | the name `../global_settings.json` takes it when the new registry cannot be written |
| Identity.LostRegistryForgetsAll | crates/abigail-identity/src/lib.rs:147-176 | the next opening then makes a registry of a new Hive alone |
| Identity.FirstOpening | crates/abigail-identity/src/lib.rs:147-176 | opening without a registry provides the Hive exactly when its files can be written |
| IdentityDisk.OtherDirsAreKept | crates/abigail-identity/src/lib.rs:416-1233 | no call touches the directory of an agent that it neither names nor is given a path to, and none but such a restore the Hive's |
| IdentityDisk.RunLeavesAlone | crates/abigail-identity/src/lib.rs:416-1233 | and so over every run: the directory stays as it is whatever becomes of all others |
| IdentityDisk.RestoreTouchesExactly | crates/abigail-identity/src/lib.rs:1139-1172 | a restore leaves the directory of every identity alone exactly when it finds nothing, copying fails, the name does not lead into identities/, or all that was there is left there |
| IdentityDisk.HiveCanBeMoved | crates/abigail-identity/src/lib.rs:1139-1172 | the name `../identities/<hive>` moves the Hive's directory to a new agent's, and when that call succeeds |
| IdentityDisk.AbsoluteIsLocated | crates/abigail-identity/src/lib.rs:1139-1145 | an absolute name leads to that place of the disk, whatever is in backups/ |
| IdentityDisk.RelativeNeedsBackups | crates/abigail-identity/src/lib.rs:1139-1145 | a relative name leads nowhere without backups/ |
| IdentityDisk.OnlyDeletionLoses | crates/abigail-identity/src/lib.rs:416-1233 | whatever fails, every directory's files are after any call but a deletion where they were, or where the directory was moved |
| IdentityDisk.FilesSurvive | crates/abigail-identity/src/lib.rs:416-1233 | so over any run without deletions every directory's files are still somewhere |
| IdentityDisk.DeletionKeepsOthers | crates/abigail-identity/src/lib.rs:930-955 | a deletion loses nothing but what is in the directory of the agent it names |
| IdentityDisk.SuccessIsSaved | crates/abigail-identity/src/lib.rs:416-1233 | after a successful call that changed anything the file equals the registry in memory |
| IdentityDisk.ErrorsExactly | crates/abigail-identity/src/lib.rs:416-1233 | which error each call answers with, and exactly when |
| IdentityDisk.FirstOpeningLeaves | crates/abigail-identity/src/lib.rs:147-176 | what a first opening leaves on the disk, whether it succeeds or not |
| IdentityDisk.CreatedExactly | crates/abigail-identity/src/lib.rs:416-499 | exactly when an agent is created, and what its directory and the registry then hold |
| IdentityDisk.RenamedExactly | crates/abigail-identity/src/lib.rs:642-654 | exactly when an agent is renamed; only its name changes |
| IdentityDisk.DeletedExactly | crates/abigail-identity/src/lib.rs:930-955 | exactly when an agent is deleted; its entry goes, and nothing is left at or under its directory |
| IdentityDisk.ArchivedExactly | crates/abigail-identity/src/lib.rs:959-1011 | exactly when an agent is archived; its directory is the backup's then |
| IdentityDisk.ArchiveAbandonsExactly | crates/abigail-identity/src/lib.rs:959-1011 | a directory stays in place without an agent exactly when the registry could not be written or the move failed |
| IdentityDisk.ArchiveThenRestore | crates/abigail-identity/src/lib.rs:959-1233 | an archived agent comes back under a new id with all that it had |
| IdentityDisk.MigratedExactly | crates/abigail-identity/src/lib.rs:811-927 | exactly when a migration makes an agent, and that it has the legacy data |
| IdentityDisk.MigratingAgainExactly | crates/abigail-identity/src/lib.rs:811-927 | after one migration another makes one more agent with the same data exactly when nothing fails in it and its id is new |
| Archive.ToLe | crates/abigail-memory/src/archive.rs:156-157 | four little-endian bytes that read back as the number |
| Archive.LeBytesAreUnique | crates/abigail-memory/src/archive.rs:192 | the bytes are determined by the number read from them |
| Archive.Export | crates/abigail-memory/src/archive.rs:97-169 | the growing buffer is prefix and ciphertext, the prefix being the associated data |
| Archive.ExportSucceeds | crates/abigail-memory/src/archive.rs:98-153 | an export for a proper public key fails exactly for an oversized header |
| Archive.ExportFailsExactly | crates/abigail-memory/src/archive.rs:98-153 | an export fails exactly for a public key of the wrong size or an oversized header, each with its own error |
| Archive.ExportedIsRestored | crates/abigail-memory/src/archive.rs:96-335 | whatever is exported for a key pair, the owner of the seed gets back through the version dispatch |
| Archive.ArchiveV1IsRestored | crates/abigail-memory/src/archive.rs:204-277 | archives of the old layout are restored too |
| Archive.AcceptedIsSealed | crates/abigail-memory/src/archive.rs:279-335 | accepted data is a prefix with what that very prefix seals |
| Archive.CiphertextIsBound | crates/abigail-memory/src/archive.rs:279-335 | an exported ciphertext yields the exported text from the exported bytes or nothing |
| Archive.RejectedExactly | crates/abigail-memory/src/archive.rs:180-335 | data is rejected with an error exactly when that is the first thing wrong with it |
| Archive.MemoryStore.ImportTurns | crates/abigail-memory/src/archive.rs:212-217 | turns whose id is there already are skipped, the others inserted and counted |
| Archive.MemoryStore.ImportMemories | crates/abigail-memory/src/archive.rs:219-239 | and so are memories, with their weights and times read back |
| Archive.ForeignRecordExactly | crates/abigail-memory/src/archive.rs:219-239 | any record comes back as it was exactly when its weight has one of the three names and its time is one the clock writes; an unknown weight is ephemeral, and an unreadable time that of the import |
| Archive.StoreComesBack | crates/abigail-memory/src/archive.rs:107-239 | a store exported in any order comes back the same in an empty store, and changes nothing in itself |
| AgenticRuntime.Runtime.EnforceStatusTransition | tauri-app/src/agentic_runtime.rs:572-600 | the transition of one run, in place |
| AgenticRuntime.Runtime.PersistAll | tauri-app/src/agentic_runtime.rs:498-526 | the store gets one record per run, in any map order |
| AgenticRuntime.Runtime.StartRun | tauri-app/src/agentic_runtime.rs:205-280 | starting a run refines its step; its engine goes to work only when the store was written |
| AgenticRuntime.Runtime.EngineActs | crates/abigail-router/src/agentic.rs:243-558 | what the engine writes into its run, and the event it sends, refine its step |
| AgenticRuntime.Runtime.HandleEngineEvent | tauri-app/src/agentic_runtime.rs:457-473 | an engine event refines its step |
| AgenticRuntime.Runtime.MarkFailedIfNeeded | tauri-app/src/agentic_runtime.rs:475-496 | a forced failure refines its step |
| AgenticRuntime.Runtime.InitializeRecovery | tauri-app/src/agentic_runtime.rs:142-179 | the recovery loop refines its step, and counts the runs that had not ended |
| AgenticRuntime.NextKeepsInv | tauri-app/src/agentic_runtime.rs:475-600 | whatever the engines, the handling of their events, forced failures, writes and restarts do, a run has an end exactly when it has ended, no engine is at work on one that has, and what is still to be handled are the last of its events, in order |
| AgenticRuntime.EventsDecide | tauri-app/src/agentic_runtime.rs:572-600 | over any series of events a run ends completed, failed or cancelled by the first ending one, at its time; until then it waits for input or a confirmation when that was the last thing said, and runs when anything else was |
| AgenticRuntime.EngineDecides | crates/abigail-router/src/agentic.rs:243-558 | over any series of an engine's acts the run has the outcome of the last, or the status it last wrote, and every event sent, in order |
| AgenticRuntime.ForcedFailureIsIdle | tauri-app/src/agentic_runtime.rs:475-496 | an engine ends its run before it returns, so a forced failure never changes anything |
| AgenticRuntime.NothingRecovered | tauri-app/src/agentic_runtime.rs:142-157 | without a store that can be read a restart finds nothing and leaves the file alone |
| AgenticRuntime.EndedIsFinal | tauri-app/src/agentic_runtime.rs:590-594 | in one process an ended run never changes: not by its engine, by events handled late, or by a forced failure |
| AgenticRuntime.EndedUntilRestart | tauri-app/src/agentic_runtime.rs:457-600 | and so over any run of steps up to the next restart |
| AgenticRuntime.RecoveryEndsAll | tauri-app/src/agentic_runtime.rs:142-179 | a restart ends every run, adds one failure event to exactly those that had not ended, and counts those |
| AgenticRuntime.SecondRestartFindsNone | tauri-app/src/agentic_runtime.rs:142-179 | once that is written, the next restart recovers nothing and finds the same runs |
| AgenticRuntime.FileRoundTrip | tauri-app/src/agentic_runtime.rs:498-532 | ended runs come back from the file as they were |
| AgenticRuntime.WritingMakesDurable | tauri-app/src/agentic_runtime.rs:498-526 | a successful write makes every ended run durable |
| AgenticRuntime.DurableForever | tauri-app/src/agentic_runtime.rs:142-600 | a durable run never changes again, over any events, failures, writes and restarts that do not tear the store |
| AgenticRuntime.EndSurvivesExactly | tauri-app/src/agentic_runtime.rs:142-179 | a run keeps its status across a restart exactly when the store can be read and has a record of it with that status, or with none that has ended while the run has failed |
| AgenticRuntime.TornStoreLosesEnd | tauri-app/src/agentic_runtime.rs:498-532 | a failed run is lost when the write that follows tears the store |
| RateLimit.CooldownGuard.Check | tauri-app/src/rate_limit.rs:24-35 | a rejected call changes nothing, an accepted one sets the last call |
| RateLimit.CheckAll | tauri-app/src/rate_limit.rs:24-35 | a run of checks accepts exactly the calls of the specification |
| RateLimit.AcceptedAreSpaced | tauri-app/src/rate_limit.rs:24-35 | accepted calls are at least the interval apart |
| RateLimit.WindowIsBounded | tauri-app/src/rate_limit.rs:24-35 | a window of width W holds at most W / interval + 1 accepted calls |
| RateLimit.AcceptedExactly | tauri-app/src/rate_limit.rs:27-32 | a call is accepted exactly when every accepted call is the interval past |
| RateLimit.RemainingIsExact | tauri-app/src/rate_limit.rs:29-31 | a caller that waits the returned time is accepted, and not before |
| RateLimit.EarlierInstantWaits | tauri-app/src/rate_limit.rs:27-32 | an instant before the last accepted call has the whole interval to wait |
| RateLimit.AcceptsTheMost | tauri-app/src/rate_limit.rs:24-35 | no choice of calls that keeps the interval has more of them |

## Left out

- LineFraming.PullModelStreaming: works on characters; a chunk cut inside a multi-byte character is decoded
  lossily by the source and is outside the claim. `render` stands for `emit_pull_line`, whose JSON reading is not
  modelled.
- OpenEntity.SlotsAreExclusive: lock poisoning, task cancellation and panics are not steps of the protocol, and on
  the spawn-failure path the close request may reach the daemon after a new call has opened it again.
- Embeddings.SimilarityIsBounded: over the reals; `f32` rounding can leave the interval.
- Archive.CiphertextIsBound: the cipher is ideal, so that no ciphertext is sealed in two ways; the real one
  is bound only up to forgery.
- Archive.ExportedIsRestored: assumes that JSON and base64 decode what they encode.
- Signing.AcceptedIsSigned: signatures are terms that name their signer; forgery is not modelled.
- IdentityDisk.ArchiveThenRestore: `files` stands for every file of a directory but its config.json, so that the
  rewritten `signature.sig` and `backup_metadata.json` are not seen.
- IdentityDisk.OnlyDeletionLoses: new identifiers are assumed fresh, as they are random; putting a directory where
  one is already is not modelled as the merge that copying makes of it.
- Identity.RestoreBackup: there are no symbolic links, a file of the disk counts as a directory, and the registry's
  file and the legacy files are kept apart from the tree; only the registry's file can be taken.
- Identity: `delete_backup`, which joins its name in the same way and removes what is there, `backup_agent`, the
  recovery after a failed decryption and the master key are not steps. How a backup's name is made from a clock and
  a name is not modelled; it must be free.
- AgenticRuntime.DurableForever: concurrent writes of the store may land out of order; here each write takes effect
  when it is made.
- AgenticRuntime.NextKeepsInv: for a store whose ended records all have an end, as every store written by this
  code. Of the engine (crates/abigail-router/src/agentic.rs) it is assumed that it sends each event as it writes it,
  acts until it has sent an ending event, and that a run is failed from outside only after its engine has returned;
  its turns, tool calls and messages are not modelled.
- Migration: databases are read at once; failures of single upserts are crashes; timestamps of the report are not
  modelled.
- Birth: `config_mut` gives raw access to the configuration and is not a step; the conversation and the
  crystallisation engine do not affect the stage.
- PathGuard: paths are component sequences with an optional root; Windows prefixes and parsing of path text are not
  modelled, and neither is `trusted_file_path`.
- `usize`, `u32` and `u64` counters are unbounded, but for the four-byte fields of an archive.
- HTTP clients, process spawning, Tauri commands, SQLite, SurrealDB and JSON: I/O only.
- `edges_to`, `edges_of_type`, `all`, `get_cached`, `providers`, `list_backups` and display texts: each only reads or
  filters state that is modelled.
