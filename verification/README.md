# DeepSignal, verified

A Dafny model of the parts of DeepSignal that carry state, arithmetic or an encoding, with proofs
about all inputs, all runs and all interleavings. `dafny verify dfyconfig.toml` checks everything.

What is modelled, one module per file:

- **Seal policies.** `Text` and `Json` hold strings as UTF-16 code units and JSON values with a real
  printer and a decoder that reads the printed text back. `Policy` is the canonical policy text: sort
  every object, drop `undefined`, print. `Fnv` is the hash of that text in signed 32-bit steps, `Hex`
  the byte strings and scoped ids. `Seal` builds policy snapshots and compares them. `Envelope` holds
  the two envelope checkers, and `SealRoundTrip` follows an envelope from `encrypt` through its stored
  text to the comparison made before decryption.
- **Session keys.** `SessionCache` is the memory map, its sessionStorage copy and the pending promises,
  as a state machine whose steps are the stretches of code between two `await`s. The class
  `SessionKeys` is the module's variables.
- **Dashboard restore.** `ProjectSelection` reads the selected project from localStorage; `Dashboard` is
  the snapshot, the storage handlers, the wallet timer and the log of what listeners were told. The class
  `ProjectRestore` is the module's variables.
- **Build.** `ChunkGraph` is the depth-first walk over the chunk graph with its shared `seen` set,
  `WorkerPool` the concurrent map with its shared index, under any interleaving.
- **CSV.** `Csv` is the exporter's columns, rows and text, and a reader for section 2 of RFC 4180 that
  takes LF as the record end.
- **Stores.** `Sorting` is the language's stable sort, `filter` and `map`, `Keyed` arrays looked up by id.
  `LocalStore` is the array-backed adapter, `ActivityLog` the merged event log kept as one JSON text,
  `SuiActivity` the two-level cache with pending queries, `Diagnostics` filtering and summaries.

Where the source changes variables in place there is a class or a method with a loop. Each method is
tied by its `ensures` to a function on values, and the results are proved about those functions and
about runs of them.

Where the code does not do what one might expect, the model says exactly when:

- The session-key `finally` deletes the pending entry by key, so a clear of the cache lets one more
  creation run: k clears allow k + 1 at once, and some run reaches that number
  (`SessionCache.InFlightBound`, `SessionCache.BoundIsMet`).
- The two copies of a session key come to disagree exactly by an approval whose sessionStorage write
  fails while another key is stored (`SessionCache.CopiesAgreeExactly`). That takes both a clear and a
  failed write, and one of each can do it (`SessionCache.CopiesAgree`, `SessionCache.CopiesCanDisagree`).
- The session cache key joins wallet and package with a colon, so wallets with a colon inside can share
  an entry (`SessionCache.CacheKeyShared`).
- Server ids are compared as joined lines, so two lists count as equal exactly when they have the same
  lines, an id with a line break counting as several (`Seal.JoinedExactly`, `Seal.ServersReportedExactly`).
- The dashboard reads only the first non-empty item under a prefix, so a value without an id hides the
  later items (`ProjectSelection.PickedExactly`, `ProjectSelection.SelectionExactly`).
- A diagnostics limit strictly between 0 and 1 is accepted and lists nothing
  (`Diagnostics.ResolveLimit`).

## Model

| member | source | states |
|---|---|---|
| Json.CharsRoundTrip | src/crypto/sealPayload.ts:232-234 | a string printed with JSON escapes is read back unit by unit, whatever text follows it, lone surrogates included |
| Json.EscapesAre | src/crypto/sealPayload.ts:232-234 | the short escapes of JSON strings, and that every other unit but a control character or surrogate is printed as itself |
| Json.PlainChars | src/crypto/sealPayload.ts:232-234 | a text without such units is printed as it stands between the quotes |
| Json.SurrogatesPrinted | src/crypto/sealPayload.ts:232-234 | a surrogate pair is printed as it stands, and a surrogate without its other half as an escape |
| Json.StringifyRoundTrip | src/crypto/sealPayload.ts:232-234 | decoding the text of any value gives the value with its undefined entries dropped |
| Policy.SortKeepsMeaning | src/crypto/sealPayload.ts:286-299 | sorting puts the keys of every object in order at every depth, leaves no undefined entry and changes no defined one |
| Policy.SortedUnique | src/crypto/sealPayload.ts:286-299 | two sorted trees with the same defined entries are printed alike |
| Policy.SerializationReadsBack | src/crypto/sealPayload.ts:232-234 | the canonical text decodes to a tree with the defined entries of the policy it was made from |
| Policy.SerializationCanonical | src/crypto/sealPayload.ts:232-234 | two policies get the same text if and only if they hold the same defined entries at every depth, for every strict total key order |
| Fnv.XorBitwise | src/crypto/sealPayload.ts:239-239 | exclusive or bit by bit: a bit of the result is set exactly where the two numbers have different bits |
| Fnv.XorOfWords | src/crypto/sealPayload.ts:239-239 | the same for 32-bit words |
| Fnv.HashSealPolicyJson | src/crypto/sealPayload.ts:236-243 | the loop over signed numbers computes the unsigned 32-bit FNV-1a hash of the text, printed as eight hex digits after the label |
| Fnv.StepInjective | src/crypto/sealPayload.ts:239-240 | one step loses neither the previous hash nor the code unit |
| Fnv.HashInjectiveInSeed | src/crypto/sealPayload.ts:238-241 | hashing one text from two different states never ends in the same state |
| Fnv.HashTextInjective | src/crypto/sealPayload.ts:242-242 | the printed text determines the 32-bit hash |
| Fnv.OneUnitChangesHash | src/crypto/sealPayload.ts:236-243 | two texts of one length that differ in exactly one code unit never get the same hash |
| Hex.PaddedHexReadsBack | src/crypto/sealPayload.ts:242-242 | padded base-16 text has its full width and determines its number |
| Hex.HexToBytes | src/crypto/sealPayload.ts:355-365 | the buffer is filled with the value of every pair of digits, with `parseInt`'s treatment of other characters; an odd number of digits is refused |
| Hex.PairFromDigit | src/crypto/sealPayload.ts:362-362 | two hex digits of either case are their number; a digit before another character is its own value |
| Hex.PairFromOther | src/crypto/sealPayload.ts:362-362 | a digit after white space or a plus sign is its own value, after a minus sign it is negated in a byte; after any other character, and without a digit, the byte is 0 |
| Hex.HexRoundTrip | src/crypto/sealPayload.ts:355-369 | `hexToBytes` undoes `toHex` on all byte strings |
| Hex.CreateScopedSealId | src/crypto/sealPayload.ts:314-330 | the id is the hex text of the scope's bytes followed by the nonce |
| Hex.ScopedIdMatches | src/crypto/sealPayload.ts:314-348 | an id is made exactly when the scope has an even number of digits, and it matches its project or owner for every nonce |
| Hex.MatchDeterminesScope | src/crypto/sealPayload.ts:332-348 | scopes of one byte length that match one object id are the same bytes |
| Hex.ScopedIdFresh | src/crypto/sealPayload.ts:314-330 | different nonces of one length give different ids |
| Text.TrimExactly | src/crypto/sealPayload.ts:172-178 | trimming takes exactly the white space at both ends |
| Text.SpaceExactly | src/crypto/sealPayload.ts:173-173 | white space is that of ECMAScript |
| Text.LowerUnitExactly | src/crypto/sealPayload.ts:173-173 | every ASCII capital becomes its small letter and nothing else changes |
| Seal.NormalizeExactly | src/crypto/sealPayload.ts:172-178 | a normalised identifier is the text between white space in small letters, with 0x put before it unless it has that or is empty |
| Seal.NormalizeIdsExactly | src/crypto/sealPayload.ts:263-263 | a list of ids keeps, normalised, exactly those that do not normalise to nothing |
| Seal.NormalizeIdempotent | src/crypto/sealPayload.ts:172-178 | normalising an identifier twice is normalising it once |
| Seal.HexIsNormal | src/crypto/sealPayload.ts:172-178 | ids made by `toHex` are normal already |
| Seal.UnknownPolicyFollowsScope | src/crypto/sealPayload.ts:199-230 | without a known policy, the signal policy is selected exactly when the object id matches the project, as every id scoped to it does |
| Seal.KnownPolicySelected | src/crypto/sealPayload.ts:209-221 | the two project policies are kept, and the two reviewer policies become them |
| Seal.CapabilityTypes | src/crypto/sealPayload.ts:185-197 | the capability type of every policy |
| Seal.SnapshotSealsInput | src/crypto/sealPayload.ts:245-284 | the canonical text of a created snapshot reads back with the normalised input under its nine names, absent ones left out, and the hash is that of this text |
| Json.PrettyIsCompact | src/crypto/sealPayload.ts:275-275 | pretty-printed text without the line breaks and spaces outside strings is the compact text |
| Seal.RawPolicyIsCanonical | src/crypto/sealPayload.ts:275-276 | the raw policy text is the canonical text with layout |
| Seal.CanonicalTextInjective | src/crypto/sealPayload.ts:245-284 | two policies have one canonical text exactly when all nine fields are equal, the server ids as a list |
| Seal.CollectDiffs | src/crypto/decryptDiagnostics.ts:249-258 | the loop collects the differences of the keys it is given, in their order |
| Seal.CompareSealPolicySnapshots | src/crypto/decryptDiagnostics.ts:230-282 | the method computes the comparison, and none when a snapshot is missing |
| Seal.DiffsExact | src/crypto/decryptDiagnostics.ts:249-258 | the differences listed are exactly those of the reported keys among the given ones, each with both values |
| Seal.CompareReports | src/crypto/decryptDiagnostics.ts:276-281 | `matches` holds exactly when nothing is reported, and `differingKeys` lists exactly what is |
| Seal.MatchesExactly | src/crypto/decryptDiagnostics.ts:230-282 | created snapshots match if and only if all nine policy fields agree, the server ids as a list, and the encrypting wallet, if any, is the decrypting one |
| Seal.InputsMatchExactly | src/crypto/decryptDiagnostics.ts:230-282 | the same on the inputs: identifiers, servers and owner agree after normalisation, network, policy and effective capability type agree, and the normalised encrypting wallet, if any, is the decrypting one |
| Seal.InputsTold | src/crypto/decryptDiagnostics.ts:236-258 | for the scope, policy and capability keys: the key is reported exactly when the two normalised inputs differ, and both are shown |
| Seal.OthersTold | src/crypto/decryptDiagnostics.ts:259-275 | the same for hash and canonical text; a wallet is reported exactly when the encrypting side has one and the decrypting side has not the same; both wallets and both server lists are shown |
| Seal.JoinedExactly | src/crypto/decryptDiagnostics.ts:269-275 | lists of non-empty ids join to one text if and only if they have the same lines, an id with a line break counting as several |
| Seal.ServerJoinInjective | src/crypto/decryptDiagnostics.ts:269-275 | ids without line breaks join to one text if and only if the lists are equal |
| Seal.ServersReportedExactly | src/crypto/decryptDiagnostics.ts:269-275 | the server ids of created snapshots are reported if and only if their lines differ, and so, without line breaks in the ids, if and only if the lists differ |
| Seal.JoinedServersCollide | src/crypto/decryptDiagnostics.ts:269-275 | with line breaks joining does merge lists: any two ids join like one id with a line break inside |
| Seal.RestoreIsIdentity | src/crypto/decryptDiagnostics.ts:210-228 | restoring a stored snapshot leaves a created one unchanged |
| Envelope.CheckersAgree | src/crypto/decryptDiagnostics.ts:347-442 | the strict checker accepts exactly what the lenient one accepts with a non-empty package, object, ciphertext and server list, and returns the same envelope |
| Envelope.AcceptedExactly | src/crypto/sealPayload.ts:102-157 | an envelope is accepted exactly when it holds the stored constants, the right types, a known policy, a network and a policy object, by the names that are stored |
| Envelope.RefusedFor | src/crypto/decryptDiagnostics.ts:347-442 | a refusal blames the policy exactly when an object or array names no policy, and the manifest otherwise |
| Envelope.PolicyObjectFallsBack | src/crypto/sealPayload.ts:141-145 | the policy object is the stored one, else project, owner or object, in this order |
| Envelope.CompletedFields | src/crypto/sealPayload.ts:140-166 | the accepted envelope reads as the parsed one but for the six completed fields, each with its fallback |
| Envelope.ParseIdempotent | src/crypto/sealPayload.ts:102-170 | parsing an accepted envelope again leaves it as it is |
| Envelope.EnvelopeRoundTrip | src/crypto/sealPayload.ts:102-170 | printing an accepted envelope and parsing the text gives the same envelope |
| SealRoundTrip.StoredEnvelope | src/crypto/sealPayload.ts:87-100 | the stored text of an envelope decodes to an object with every field it was made with |
| SealRoundTrip.StoredSnapshotReadsBack | src/crypto/decryptDiagnostics.ts:210-228 | a snapshot stored in an envelope is read back with all its fields |
| SealRoundTrip.SidesAgree | src/crypto/decryptDiagnostics.ts:165-193 | the fields derived when decrypting are those used when encrypting if and only if the networks are equal and the contexts have the same scope |
| SealRoundTrip.EncryptThenOpen | src/crypto/sealClientAdapter.ts:153-205 | an envelope made by `encrypt` and read back is accepted exactly when it has a network, a package and a ciphertext, and then `matches` holds exactly when the decrypting build has the same network and: for a project the context adds no owner, for an owner it adds no project and the wallet is the owner, for neither it adds neither |
| SealRoundTrip.EncryptFails | src/crypto/sealClientAdapter.ts:154-165 | `encrypt` fails exactly when Seal is not configured or the scope in use has an odd number of digits |
| SealRoundTrip.EnvelopeSays | src/crypto/sealClientAdapter.ts:158-204 | the stored text gives network, package, object, single key server, ciphertext and time, and the policy, owner and policy object of its scope |
| SealRoundTrip.ObjectIdBytes | src/crypto/sealClientAdapter.ts:161-165 | the object id is the project's bytes or else the owner's, followed by the nonce, and random bytes without either |
| SealRoundTrip.StoredSnapshotSays | src/crypto/sealClientAdapter.ts:178-188 | the stored snapshot holds the raw and canonical text, the hash and the wallet |
| SealRoundTrip.DecryptPolicy | src/crypto/decryptDiagnostics.ts:170-179 | without a project the decrypting side keeps the envelope's policy; with one a known policy becomes the signal or admin policy and an unknown one follows the object id |
| SealRoundTrip.FallbackMatchesExactly | src/lib/storageSeal.ts:592-596 | an envelope without a stored snapshot matches exactly when the networks agree, the policy selected for decryption is the envelope's, the context adds no project or owner, and the envelope's owner, if any, is the decrypting wallet |
| SessionCache.CacheKeyShared | src/crypto/sealClientAdapter.ts:430-432 | two requests share a cache entry if and only if their normalised wallet and package agree, or one wallet is the other with more text behind a colon and the other package starts with that text |
| SessionCache.CacheKeyExact | src/crypto/sealClientAdapter.ts:430-432 | requests of wallets without a colon share a cache entry if and only if their normalised wallet and package agree |
| SessionCache.StraddlingPairsCollide | src/crypto/sealClientAdapter.ts:430-432 | a wallet with a colon inside does share its entry with the wallet before the colon, for a suitable package |
| SessionCache.InFlightBound | src/crypto/sealClientAdapter.ts:434-485 | in any interleaving with k clears at most k + 1 creations of one key are unfinished, though `finally` deletes by key |
| SessionCache.BoundIsMet | src/crypto/sealClientAdapter.ts:120-123 | for every k some run with k clears has k + 1 creations in flight |
| SessionCache.PendingIsUnique | src/crypto/sealClientAdapter.ts:434-485 | without a clear an unfinished creation is the pending one and the only one of its key |
| SessionCache.ConcurrentRequestsShare | src/crypto/sealClientAdapter.ts:450-485 | without a clear, a request made while a creation is unfinished prompts nobody: it gets a cached key or joins that creation |
| SessionCache.ConcurrentRequestsEndAlike | src/crypto/sealClientAdapter.ts:450-485 | without a clear, every request made while a creation is unfinished ends with what the wallet answered to that creation, however the run goes on |
| SessionCache.RequestOutcome | src/crypto/sealClientAdapter.ts:450-464 | a request gets the live key that memory or storage holds, else the pending creation, else fails without a wallet that signs, else starts a creation |
| SessionCache.RequestLeavesOthers | src/crypto/sealClientAdapter.ts:487-546 | a request never touches the copies of another key |
| SessionCache.NeverExpired | src/crypto/sealClientAdapter.ts:487-546 | no request is answered with an expired key |
| SessionCache.StoredKeyIsUsed | src/crypto/sealClientAdapter.ts:430-582 | a request made after a key is stored and before it expires gets that key without a prompt, in any further run, with reloads when the copy was written |
| SessionCache.SplitsExactly | src/crypto/sealClientAdapter.ts:548-574 | agreeing copies come to disagree exactly by an approval whose sessionStorage write fails while another key is stored there |
| SessionCache.CopiesAgreeExactly | src/crypto/sealClientAdapter.ts:487-582 | the memory and sessionStorage copies agree all through a run if and only if none of its events is such an approval |
| SessionCache.CopiesAgree | src/crypto/sealClientAdapter.ts:487-582 | a run without a clear, or without a failed write, has no such approval, and its copies agree |
| SessionCache.CopiesCanDisagree | src/crypto/sealClientAdapter.ts:120-123 | with one clear and one failed write they disagree |
| SessionCache.SessionKeys.constructor | src/crypto/sealClientAdapter.ts:116-118 | a loaded page starts with empty maps and the stored copies |
| SessionCache.SessionKeys.ClearCachedSessionKey | src/crypto/sealClientAdapter.ts:576-582 | removes both copies of one key and nothing else |
| SessionCache.SessionKeys.LoadCachedSessionKey | src/crypto/sealClientAdapter.ts:487-546 | gives the live copy, restores the stored one to memory, and removes expired or unreadable ones |
| SessionCache.SessionKeys.PersistSessionKey | src/crypto/sealClientAdapter.ts:548-574 | sets the memory copy, and the stored one when the write succeeds |
| SessionCache.SessionKeys.GetOrCreateSessionKey | src/crypto/sealClientAdapter.ts:434-481 | a cached key, else the pending creation, else a wallet error, else one new creation that is pending |
| SessionCache.SessionKeys.Settle | src/crypto/sealClientAdapter.ts:466-478 | the creation's outcome; only an approval stores a key |
| SessionCache.SessionKeys.RunFinally | src/crypto/sealClientAdapter.ts:480-484 | the pending entry of the creation's key goes, whoever it belongs to |
| SessionCache.SessionKeys.ClearSealSessionCache | src/crypto/sealClientAdapter.ts:120-123 | empties both maps and leaves sessionStorage |
| SessionCache.SessionKeys.ReloadPage | src/crypto/sealClientAdapter.ts:116-118 | a page that is loaded again has only what sessionStorage holds |
| Dashboard.RunKeeps | src/lib/dashboardProjectRestore.ts:199-460 | every event keeps every emitted snapshot good and the handlers and timers tidy |
| Dashboard.EverySnapshotIsGood | src/lib/dashboardProjectRestore.ts:496-519 | in every reachable state and at every emit a project id is there exactly when the state is ready with a project, the wallet is settled exactly when its runtime is, and boot-pending and ready exclude each other |
| Dashboard.BootingReadyOrBroken | src/lib/dashboardProjectRestore.ts:505-519 | every visible snapshot is exactly one of boot-pending, ready, or settled with a read error |
| Dashboard.AtMostOneLive | src/lib/dashboardProjectRestore.ts:294-376 | at most one storage handler and one wallet timer are live, both of the latest initialisation |
| Dashboard.RefreshSelects | src/lib/dashboardProjectRestore.ts:199-292 | with settled storage a refresh selects the first non-empty of the legacy, namespaced and recent ids and sets the matching state |
| Dashboard.RefreshRestoresRecent | src/lib/dashboardProjectRestore.ts:134-183 | with only a list of recent projects stored, a settled refresh restores the id of its first entry with an object id |
| Dashboard.StorageEventSelects | src/lib/dashboardProjectRestore.ts:344-349 | in any run, a storage event of an active restore selects from what is stored then |
| Dashboard.TimerGivesUp | src/lib/dashboardProjectRestore.ts:351-366 | in any run, a wallet timer that fires before the wallet is settled settles it as timed out, and otherwise changes no snapshot |
| Dashboard.DeadCallbacks | src/lib/dashboardProjectRestore.ts:294-304 | a cleared timer and a storage event without a handler do nothing |
| Dashboard.MarksLeave | src/lib/dashboardProjectRestore.ts:431-460 | each settled wallet mark leaves its route and runtime |
| Dashboard.StartLeaves | src/lib/dashboardProjectRestore.ts:414-429 | an import that starts is marked unless the route is ready and settled |
| Dashboard.StopsLeave | src/lib/dashboardProjectRestore.ts:378-412 | a blocked route and a reset leave their snapshot, no handler and no timer |
| Dashboard.StartOfRestore | src/lib/dashboardProjectRestore.ts:310-376 | a restore that starts has its route, the runtime of before, one new handler and one new timer |
| Dashboard.RefreshTwice | src/lib/dashboardProjectRestore.ts:279-292 | a second refresh with unchanged storage changes nothing and notifies nobody |
| Dashboard.RefreshEmits | src/lib/dashboardProjectRestore.ts:75-104 | a refresh notifies once when the snapshot changes and not otherwise |
| Dashboard.StorageEventsNotifyChanges | src/lib/dashboardProjectRestore.ts:344-349 | over any number of storage events the listeners are told of changes only, the last one being the current snapshot |
| Dashboard.ProjectRestore.Update | src/lib/dashboardProjectRestore.ts:75-104 | an equal snapshot is not emitted, another one is set and emitted once |
| Dashboard.ProjectRestore.Resolve | src/lib/dashboardProjectRestore.ts:199-277 | the snapshot after a selection, and the emit |
| Dashboard.ProjectRestore.RefreshRestore | src/lib/dashboardProjectRestore.ts:279-292 | a reading sets the selection, a read error the error state |
| Dashboard.ProjectRestore.CleanUp | src/lib/dashboardProjectRestore.ts:370-375 | the returned clean-up removes its own handler and the current timer |
| Dashboard.ProjectRestore.Start | src/lib/dashboardProjectRestore.ts:310-376 | cleans up the active restore, emits the starting snapshot, registers one handler and one timer and refreshes |
| Dashboard.ProjectRestore.Stop | src/lib/dashboardProjectRestore.ts:378-395 | cleans up and emits the blank snapshot |
| Dashboard.ProjectRestore.FireTimer | src/lib/dashboardProjectRestore.ts:351-366 | settles the wallet once, keeping a mounted runtime |
| Dashboard.ProjectRestore.HandleStorage | src/lib/dashboardProjectRestore.ts:344-349 | a storage event refreshes while a handler is registered |
| Dashboard.ProjectRestore.ImportBegins | src/lib/dashboardProjectRestore.ts:414-429 | the wallet mark, unless the route is ready and settled |
| Dashboard.ProjectRestore.ImportIsReady | src/lib/dashboardProjectRestore.ts:431-439 | the wallet mark without its timer |
| Dashboard.ProjectRestore.ImportHasFailed | src/lib/dashboardProjectRestore.ts:441-450 | the wallet mark with its error, without its timer |
| Dashboard.ProjectRestore.ImportIsSkipped | src/lib/dashboardProjectRestore.ts:452-460 | the wallet mark without its timer |
| Dashboard.ProjectRestore.Block | src/lib/dashboardProjectRestore.ts:397-412 | cleans up and blocks, emitting only a change |
| ProjectSelection.ItemFound | src/lib/dashboardProjectRestore.ts:166-166 | an item is found by its key, at any place among the others |
| ProjectSelection.ValueFound | src/lib/dashboardProjectRestore.ts:120-132 | the value under a prefix is that of the first item with the prefix and a value, none if there is no such item |
| ProjectSelection.SelectionIsFirstNonEmpty | src/lib/dashboardProjectRestore.ts:165-183 | readable storage gives the first non-empty of the legacy id, the namespaced id that is read and the id in the recent list's text |
| ProjectSelection.RecentListSelects | src/lib/dashboardProjectRestore.ts:134-163 | with only a list of recent projects stored, the normalised id of its first entry with an object id is selected, none if that is no text |
| ProjectSelection.ObjectIdExactly | src/lib/dashboardProjectRestore.ts:106-118 | an id is the normalised identifier, but for the words null and undefined |
| ProjectSelection.PickedExactly | src/lib/dashboardProjectRestore.ts:120-132 | reading the first non-empty value under a prefix gives the first id of all items with it if and only if that value does not come to nothing while another item has an id |
| ProjectSelection.NamespacedExactly | src/lib/dashboardProjectRestore.ts:174-180 | this condition for the selected project |
| ProjectSelection.RecentExactly | src/lib/dashboardProjectRestore.ts:134-163 | this condition for the recent list, whose text is decoded for the first entry with an object id |
| ProjectSelection.SelectionExactly | src/lib/dashboardProjectRestore.ts:165-183 | exactly when the selected id is the first of all ids that storage offers: legacy, namespaced in order, recent in order |
| ProjectSelection.SelectionSurvivesWriting | src/lib/dashboardProjectRestore.ts:106-118 | the selected id written back under the legacy key is selected again, whatever else is stored |
| ProjectSelection.VoidNamespacedIdHidesLater | src/lib/dashboardProjectRestore.ts:120-132 | such hiding happens: the word null before an item with an id |
| ChunkGraph.Walk.CollectChunkAssets | vite.config.ts:175-217 | on any graph, cycles included, the walk ends; it visits only chunks reachable from the given one, leaves none half done, and lists exactly the files of the newly visited ones, without duplicates |
| ChunkGraph.Walk.CollectEach | vite.config.ts:206-214 | the same for a list of chunks that share the `seen` set |
| ChunkGraph.Bundle.WalkIsReachability | vite.config.ts:181-189 | a walk from an empty `seen` set visits exactly the reachable chunks |
| ChunkGraph.CollectRoute | vite.config.ts:175-217 | a route gets, without duplicates, exactly the build's files among the reachable chunks, their imports, style sheets and the dynamic imports that count |
| ChunkGraph.RootDynamicImportsOnly | vite.config.ts:194-214 | with `recurseDynamicImports` false only static imports are followed and only the root's dynamic imports are listed |
| WorkerPool.WorkerCount | vite.config.ts:636-636 | there is always a worker, also for no items or a limit below one |
| WorkerPool.RunInv | vite.config.ts:626-639 | under any interleaving every index called has its own answer, or one worker waiting for it, or some worker failed |
| WorkerPool.NeverTwiceNeverTooMany | vite.config.ts:626-639 | the mapper is called with 0, 1, 2, ... once each |
| WorkerPool.LimitHolds | vite.config.ts:636-637 | at every moment of every run at most one call is open, or at most as many as the limit and as there are items |
| WorkerPool.LimitIsMet | vite.config.ts:636-637 | with a limit and items, some run has exactly the lesser of the two open |
| WorkerPool.ResultsBelong | vite.config.ts:626-639 | when all workers are done every index was mapped once and results[i] is the answer for items[i] |
| WorkerPool.PoolTerminates | vite.config.ts:629-635 | no run is longer than twice the items plus the workers |
| WorkerPool.StuckWorkers | vite.config.ts:629-637 | when nothing more can happen every worker is done or has failed |
| WorkerPool.RunsFinish | vite.config.ts:626-639 | a run without a rejection that cannot go on has all workers done, if the mapper answers every call |
| WorkerPool.SharedPool.constructor | vite.config.ts:627-637 | the shared array and index before the workers begin |
| WorkerPool.SharedPool.Advance | vite.config.ts:630-633 | the loop head takes the next index or stops |
| WorkerPool.SharedPool.Resume | vite.config.ts:630-634 | the answer is stored at the worker's own index and nothing else changes |
| Csv.TableRoundTrip | src/lib/export.ts:198-204 | the printed table reads back as the same cells, for all cell texts |
| Csv.FormulaLikeExactly | src/lib/csv.ts:3-3 | a text counts as a formula exactly when one of = + - @ stands after nothing but tabs, line breaks and spaces |
| Csv.SanitizedCellReads | src/lib/csv.ts:1-5 | a sanitised cell reads as text without such a unit, which is the given text exactly when that has none, and otherwise the given text behind an apostrophe |
| Csv.HeadingsTellVersions | src/lib/export.ts:86-93 | prefixed headings are equal exactly when version and heading are |
| Csv.SingleVersionHeadings | src/lib/export.ts:86-93 | submissions of one version have the plain headings of its fields |
| Csv.FieldsExactly | src/lib/export.ts:82-85 | a version's own form is used when known, the current one otherwise |
| Csv.VersionBlock | src/lib/export.ts:78-94 | the columns of one version are one block, its fields in order, and no other column is of that version |
| Csv.AnswersLandOnce | src/lib/export.ts:168-196 | each answer of a submission stands once, below the column of its version and field, and all other answer cells are empty |
| Csv.BaseCellsAligned | src/lib/export.ts:145-190 | a row has as many fixed cells as there are fixed columns, nineteen, and each stands below the column that names it |
| Csv.ColumnsDiffer | src/lib/export.ts:145-164 | no two fixed columns have one name |
| Csv.ExportReadsBack | src/lib/export.ts:136-207 | the exported text reads back as header and rows, and every record has the header's width |
| Sorting.SortSorts | src/adapters/localStorageAdapter.ts:101-106 | sorting by newest first gives an ordered permutation |
| Sorting.SortStable | src/adapters/localStorageAdapter.ts:101-106 | entries that compare equal keep their order |
| LocalStore.StepRefines | src/adapters/localStorageAdapter.ts:53-114 | every operation keeps ids unique and does to the arrays what it should do to the map of records |
| LocalStore.RunRefines | src/adapters/localStorageAdapter.ts:53-114 | over any run from empty storage the arrays are the map of the same run, every id once |
| LocalStore.GetGivesLastSave | src/adapters/localStorageAdapter.ts:62-65 | `getForm` gives the last save of the form that was not deleted since, or nothing |
| LocalStore.SavedFormReadsBack | src/adapters/localStorageAdapter.ts:53-65 | a saved form is read back with its content and the blob id it had, or one made of its id |
| LocalStore.SavedSubmissionReadsBack | src/adapters/localStorageAdapter.ts:92-99 | so is a saved submission, and forms stay as they are |
| LocalStore.DeleteCascades | src/adapters/localStorageAdapter.ts:75-90 | no submission of a deleted form is left, and all other forms and submissions are, in order |
| LocalStore.ListIsNewestFirst | src/adapters/localStorageAdapter.ts:101-106 | the list is a permutation of the form's submissions, newest first, ties in stored order |
| LocalStore.LocalStorageAdapter.SaveForm | src/adapters/localStorageAdapter.ts:53-60 | the saved form comes first, once, with its blob id |
| LocalStore.LocalStorageAdapter.GetForm | src/adapters/localStorageAdapter.ts:62-65 | the form found is the map's entry |
| LocalStore.LocalStorageAdapter.DeleteForms | src/adapters/localStorageAdapter.ts:75-90 | both arrays lose the deleted forms |
| LocalStore.LocalStorageAdapter.SaveSubmission | src/adapters/localStorageAdapter.ts:92-99 | the saved submission comes first, once, with its blob id |
| LocalStore.LocalStorageAdapter.ListSubmissions | src/adapters/localStorageAdapter.ts:101-106 | an ordered permutation of the form's submissions |
| LocalStore.LocalStorageAdapter.UpdateSubmission | src/adapters/localStorageAdapter.ts:108-114 | the submission replaces the stored one in place, and adds nothing |
| ActivityLog.AcceptedExactly | src/lib/activityLog.ts:123-133 | an event counts exactly when it has an id, a form, a time and one of the four actions |
| ActivityLog.DefaultsExactly | src/lib/activityLog.ts:134-143 | what an event shows where optional fields are absent or of another kind |
| ActivityLog.NormalizeReadsBack | src/lib/activityLog.ts:123-144 | normalising an event that was normalised gives it back, also after printing and parsing it |
| ActivityLog.MergeActivityEvents | src/lib/activityLog.ts:153-162 | the merge holds each valid event id once, with the event given last for it, newest first |
| ActivityLog.WrittenIsListed | src/lib/activityLog.ts:146-169 | a written list is listed again as it was |
| ActivityLog.AppendExact | src/lib/activityLog.ts:164-169 | appending adds the new ids with their last event and keeps every stored event as it is |
| ActivityLog.RunListsFirstStored | src/lib/activityLog.ts:146-169 | after any run from an empty log the list holds, once each and newest first, exactly the event first stored for each id |
| ActivityLog.StoredStays | src/lib/activityLog.ts:164-169 | a stored event is never changed or lost by later appends |
| ActivityLog.Log.ListActivityEvents | src/lib/activityLog.ts:146-151 | the valid stored events, newest first; a stored value that is no list throws |
| ActivityLog.Log.AppendActivityEvents | src/lib/activityLog.ts:164-169 | the stored text after the append |
| SuiActivity.KeyIgnoresOrder | src/lib/activityLog.ts:276-286 | the cache key does not depend on the order of the projects, if their ids tell them apart, nor on the order of their admins |
| SuiActivity.FoldedExactly | src/lib/activityLog.ts:279-281 | an id or address enters the key in small letters, without the white space around it |
| SuiActivity.PartExactly | src/lib/activityLog.ts:276-283 | two projects enter the key alike exactly when id, owner and admins agree, white space, letter case and the order of admins aside |
| SuiActivity.KeyExactly | src/lib/activityLog.ts:276-286 | two lists get one key exactly when they hold the same projects, if no id or address holds a separator |
| SuiActivity.OneInFlight | src/lib/activityLog.ts:346-355 | in any run at most one query is in flight for a cache key |
| SuiActivity.OneInFlightPerSet | src/lib/activityLog.ts:333-355 | and so for a set of projects, in whatever order they are given |
| SuiActivity.JoinersShare | src/lib/activityLog.ts:346-355 | a call that joins joins the query in flight for its key, and a call that starts one finds none |
| SuiActivity.EveryOutcomeClears | src/lib/activityLog.ts:440-451 | whatever the outcome, the query's pending entry is removed and no other |
| SuiActivity.AnswersAreFresh | src/lib/activityLog.ts:288-301 | events given at once were fetched for that key at most 15 seconds ago |
| SuiActivity.SuccessGivesFetched | src/lib/activityLog.ts:440-448 | a successful query gives its own events and caches them, also when storage refuses the write |
| SuiActivity.FailuresFallBack | src/lib/activityLog.ts:443-448 | a failed query gives events fetched earlier for its key, and fails only when no copy is cached |
| SuiActivity.AnsweredExactly | src/lib/activityLog.ts:288-311 | while storage takes every write, a call is answered at once exactly when the last successful query is fresh, and with its events |
| SuiActivity.FailsExactly | src/lib/activityLog.ts:303-311 | while storage takes every write, a failed query gives the last successful one's events and fails exactly when there was none |
| SuiActivity.SuiActivityEvents.GetFreshCached | src/lib/activityLog.ts:288-301 | a fresh entry from memory, else from storage and then also in memory |
| SuiActivity.SuiActivityEvents.ListSuiActivityEvents | src/lib/activityLog.ts:333-456 | cached events, else the pending query, else one new pending query |
| SuiActivity.SuiActivityEvents.QuerySettles | src/lib/activityLog.ts:440-451 | result, cache entries and pending entry after a query ends, also when storage refuses the write |
| SuiActivity.SuiActivityEvents.ReloadPage | src/lib/activityLog.ts:54-55 | a page that is loaded again has only what was stored |
| Text.LessTrichotomy | src/diagnostics/diagnosticsSummary.ts:48-49 | string comparison is total and irreflexive, so the earliest and latest times are well defined |
| Diagnostics.MatchesExactly | src/diagnostics/diagnosticsService.ts:18-65 | the list keeps exactly what lies in the time range, limits included, and has the wanted properties |
| Diagnostics.QueryExactly | src/diagnostics/diagnosticsService.ts:28-45 | a query matches exactly when it is blank or one of eight texts holds it, letter case aside |
| Diagnostics.ResolveLimit | src/diagnostics/diagnosticsService.ts:47-52 | at most 500, and 0 exactly for a limit strictly between 0 and 1 |
| Diagnostics.ListsNewestMatching | src/diagnostics/diagnosticsService.ts:54-75 | the list is the newest part of all that the filter matches, and truncated exactly when the filter matched more than the limit |
| Diagnostics.KeyExactly | src/diagnostics/diagnosticsSummary.ts:20-22 | a group's key is the chosen property, or "unknown" |
| Diagnostics.SeverityOrder | src/diagnostics/diagnosticsSummary.ts:10-14 | critical outranks error, and error warning |
| Diagnostics.GroupsAreExact | src/diagnostics/diagnosticsSummary.ts:33-53 | exactly the occurring keys are groups, once each, with their true count, worst severity, first and last time and first three ids; the counts add up to the total |
| Diagnostics.RoutesAreExact | src/diagnostics/diagnosticsSummary.ts:54-54 | exactly the occurring routes are counted, truly, and the counts add up to the total |
| Diagnostics.GroupRecord.Grow | src/diagnostics/diagnosticsSummary.ts:45-52 | the group's record after one more member |
| Diagnostics.AddDiagnostic | src/diagnostics/diagnosticsSummary.ts:33-53 | only the record with the diagnostic's key changes, or one new record is added last |
| Diagnostics.CollectGroups | src/diagnostics/diagnosticsSummary.ts:30-55 | the loop over records in place computes the groups and the route counts |
| Diagnostics.SummarizeDiagnostics | src/diagnostics/diagnosticsSummary.ts:24-70 | groups that conserve and describe the list, largest first, and at most five routes such that no omitted route outnumbers a kept one |

## Left out

- ChunkGraph.CollectRoute: does not state the order of the listed files, which is the order of the walk.
- Unicode case folding: `toLowerCase` changes ASCII letters only, as identifiers are ASCII.
- Locale rules of `localeCompare`: policy keys are ordered by any strict total order, which covers the object order of integer-like keys; timestamps by any total preorder.
- General JSON texts: the decoder reads what `JSON.stringify` writes, without white space and with every key it finds; numbers are held as their printed text. A recent-projects list written otherwise reads as no list.
- A stored encrypt snapshot whose fields have the wrong types reads as one with empty fields, where the source may throw.
- Wallet, Sui and Seal SDKs, encryption, base64, random bytes and the clock: their results are inputs of the steps.
- Logging, debug readiness flags and the `loggedSourceKey` that limits logging.
- Listeners that call back into the dashboard, and other tabs: storage may read as anything at each event instead.
- Storage quota errors other than in the session-key and activity-cache writes.
- Export details: `Csv.Submission` carries formatted answers, the signal value and enumerated states as texts; the confirmation and the download are not modelled.
- File and encrypted-payload operations of the storage adapter, and the plain lists and single-form delete that call the modelled ones.
- Mapping on-chain records to activity events and paging of a query (four pages of fifty at most): a query yields an arbitrary merged list.
- SuiActivity.KeyExactly: says nothing about ids and addresses that hold a colon, comma or bar, or about empty admins.
- The JSON text of the stored Sui activity cache: it is held as a map of entries, as all entries the module writes have a positive time and normalised events.
- Redaction of diagnostics and the choice of their source: a list of diagnostics is the input.
- User interface, routing, service workers, the build's other plugins, on-chain storage and error-message classification: no unbounded property, or foreign code.
