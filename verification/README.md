# AUKS in Dafny

AUKS stores Kerberos credentials: a daemon keeps one credential per uid in memory and in a cache
directory, serves requests of authenticated clients over a small binary protocol, and a second daemon
renews what is about to expire. This project models five parts of it and proves what they promise.

**The credential store.** `FreeList.dfy` is the slot allocator: sublists of items with an intrusive
doubly linked free chain, rewired in place. `Library.dfy` is the keyed store over two allocators; its
index is a snapshot of raw slot addresses, and its `tsearch` tree is an ordered set of slots with an
in-order walk (IEEE Std 1003.1). `CredRepo.dfy` is the repository above it. The centre is
`CredRepo.Clean`: while the snapshot is walked, entries are removed, their slots zeroed, and scratch
slots borrowed from the same pool, and still every entry not yet visited points at the live entry it
pointed at. `RepoSpec.dfy` states what each operation does to the map and the directory, and
`RepoRuns.dfy` proves what that means for the entries and the files, and over whole runs: cleaning,
replacement policy, restart.

**The connection queue and the worker pool.** `Queue.dfy` refines a sequence. `WorkerPool.dfy` is a
state machine of one dispatcher, n processors, one mutex and one condition variable with signals and
spurious wake-ups, through the purge, cancel and join of a shutdown; `WorkerRun.dfy` is a run of it in
which every kind of step is taken. The thread that cleans the repository is not one of the processors.

**The configuration parsers.** `Lalr.dfy` holds the tables of the generated parser and the automaton
they drive, `LalrCorrect.dfy` proves that it recognises the grammar under any stack limit, `LalrDepth.dfy`
how deep its stack gets on any input, `LalrParser.dfy` the loop over its two growing stacks, and
`ConfigFile.dfy` puts them together (`config_ParseFile`). `RustConfig.dfy` is the recursive-descent parser,
`RustConfigText.dfy` the language it accepts, with layout, and `RustConfigErrors.dfy` what its errors say.

**The wire format.** `Wire.dfy`, `CBuffer.dfy`, `RustWire.dfy` and `WireAgree.dfy` are the two packing
programs and their agreement; `CredWire.dfy`, `CCred.dfy`, `RustCred.dfy` and `Dump.dfy` the credential
records, the dumps and their bounds.

**The protocol loops.** `SessionSpec.dfy` and `Session.dfy` are the request session on top of the
repository and the codec, and `Requests.dfy` what each request does, from the bytes that arrive to those of
the reply; `Sharing.dfy` interleaves the requests of several clients and the cleaner, and
`Exchange.dfy` follows requests and replies across the two programs. `Retry.dfy` is the two client retry
loops, `Renewer.dfy` the renewal schedule.

Code that works in place is modelled by classes, arrays and methods, each proved against a
specification function; the properties are lemmas about those functions.

## Conventions

- An item pointer is the address of the item in the memory the allocator owns, in allocation order;
  `NULL` is -1. Fields that C leaves uninitialised are arbitrary.
- Numbers are unbounded except where the source casts: `CastInt`, `ToInt32` and `ToUint32` are the casts.
  Words are stored little-endian on the host, times are 64 bits wide.
- A credential is its C structure, with the bytes after the NUL and after the used length.

## What came out

- `auks_cred_repo_add_nolock` and `auks_cred_repo_remove_nolock` update the map before they build the
  file name: with a directory path that leaves no room (119 characters or more) every addition is
  stored, reported as an error and never written (`RepoRuns.LongDirectoryLosesAll`). Restart recovers the
  map exactly when all names fit.
- The status of a cleaning is that of its last entry, so an unlink that fails earlier goes unreported,
  and the counter is only handed out when the last entry went well (`RepoRuns.CleanPrefix`).
- `auks_cred_unpack` stores times into the low half of a zeroed 64-bit field: a negative time arrives
  2^32 seconds later (`CredWire.NegativeTimeShifts`).
- `auks_message_init` leaves out the length of an empty body, `with_data` writes it; the zero padding
  of a load hides the difference (`WireAgree.BodiesAgree`).
- A get or remove request reads as one for uid 0 exactly when those bytes of its uid that are there are
  zero, none being there included (`SessionSpec.ReadsAsRoot`); the list request is answered by a ping reply.
- The cancel and join loops of the shutdown count launched threads but index created ones
  (`WorkerPool.LoopsReachLaunched`).
- The stack bound of the LALR parser for an empty block is k + 4, one less than the general formula
  (`LalrDepth.SentenceDepth`).
- `auks_api_request` with no retries configured makes no attempt and returns the plain error, while the
  Rust client makes one round (`Retries.ApiRequest`, `Retries.Request`).
- A credential is never skipped by the renewer while period + D and 2 × D are at most minlifetime + 1,
  for passes of at most D seconds; from minlifetime + 2 on, whatever the period, D and the date, one that a
  dump can deliver is (`Renewers.SkippedBeyond`, `Renewers.SkippedReceived`).
- A dump reaches a Rust client with up to 2037 credentials and a C client with up to 65199: from 65200 on the
  reply has 2^31 bytes, and the cast in the buffer makes the load fail or fall short (`Dumps.CDumpReplyBound`).
- `auks_api_dump_unpack` returns success for a negative number of records without setting its outputs
  (`Dumps.DumpCount`).

## Model

| member | source | states |
|---|---|---|
| `FreeLists.FreeList.constructor` | src/api/xternal/xfreelist.c:119-181 | a new list is one sublist whose free chain is all its items in address order; nothing is in use |
| `FreeLists.FreeList.AppendSubList` | src/api/xternal/xfreelist.c:146-168 | the initialisation loop adds one block of free, correctly linked items and touches no item that was there |
| `FreeLists.FreeList.Extend` | src/api/xternal/xfreelist.c:218-249 | extension appends a sublist of the same size at the end of the chain of sublists, leaves the old items alone and keeps the chain invariant |
| `FreeLists.FreeList.ExtractFrom` | src/api/xternal/xfreelist.c:253-299 | hands out the head of the first sublist with a free item, extending when there is none: an item that was not in use, marked used and unlinked; items in use are untouched; the invariant is kept |
| `FreeLists.FreeList.Extract` | src/api/xternal/xfreelist.c:253-299 | the same from the head of the chain |
| `FreeLists.FreeList.TakeHead` | src/api/xternal/xfreelist.c:270-296 | unlinking the head keeps every free chain acyclic and back-linked |
| `FreeLists.FreeList.Release` | src/api/xternal/xfreelist.c:303-353 | an item in use goes to the front of the free chain of the sublist that owns it; a second release reports it and changes nothing; so does an address the list does not own |
| `FreeLists.FreeList.Free` | src/api/xternal/xfreelist.c:303-353 | releasing an item in use through the first sublist never fails |
| `FreeLists.FreeList.FreeToOwner` | src/api/xternal/xfreelist.c:303-353 | nor does releasing it through the sublist named in the item |
| `FreeLists.FreeList.PutHead` | src/api/xternal/xfreelist.c:310-335 | pushing an item back keeps the invariant |
| `FreeLists.LinkedDistinct` | src/api/xternal/xfreelist.c:146-168 | a null-terminated, back-linked chain has no repetition |
| `FreeLists.OwnerBlock` | src/api/xternal/xfreelist.c:146-168 | the owner field of an item names the sublist whose block the item lies in |
| `FreeLists.BorrowReturn` | src/api/xternal/xfreelist.c:253-353 | extract followed by release puts every free chain back as it was, but for an extension that stays behind entirely free |
| `FreeLists.Conservation` | src/api/xternal/xfreelist.c:253-353 | free items + items in use = sublists × items per sublist |
| `FreeLists.UseKept` | src/api/xternal/xfreelist.c:253-353 | writing an item in use cannot break a free chain |
| `Text.CmpEqual` | src/api/xternal/xlibrary.c:724-745 | the comparison returns 0 exactly on equal references |
| `Text.CmpMeans` | src/api/xternal/xlibrary.c:724-745 | what "before" means: the first reference ends where the other goes on, or has the smaller character at the first difference |
| `Text.CmpNMeans` | src/api/xternal/xlibrary.c:724-745 | the same within the first n characters |
| `Text.CmpFlip` | src/api/xternal/xlibrary.c:724-745 | it is antisymmetric |
| `Text.CmpTransitive` | src/api/xternal/xlibrary.c:724-745 | it is transitive, so the tree has an order |
| `Libraries.TFind` | src/api/xternal/xlibrary.c:318-330 | a lookup returns a node that compares equal, or none exists |
| `Libraries.TSearchInserts` | src/api/xternal/xlibrary.c:546-556 | inserting a reference that is absent keeps the order and adds exactly that node |
| `Libraries.TDeleteRemoves` | src/api/xternal/xlibrary.c:411-437 | deleting removes exactly the node that compares equal and keeps the order |
| `Libraries.CatalogFind` | src/api/xternal/xlibrary.c:318-345 | the node found leads to the object of the key, and no node is found exactly when the key is absent |
| `Libraries.Library.constructor` | src/api/xternal/xlibrary.c:150-227 | a new library is the empty map |
| `Libraries.Library.Get` | src/api/xternal/xlibrary.c:303-363 | agrees with the map; the tree and the live slots are untouched and every free chain is as before, but for an extension |
| `Libraries.Library.Borrow` | src/api/xternal/xlibrary.c:311-320 | the scratch slot is not one of the live slots |
| `Libraries.Library.Remove` | src/api/xternal/xlibrary.c:399-453 | removes the key from the map, or reports that it is absent; every other entry stays in its slot; the index is left alone |
| `Libraries.Library.Drop` | src/api/xternal/xlibrary.c:411-448 | the same once the scratch slot is borrowed |
| `Libraries.Library.DropNode` | src/api/xternal/xlibrary.c:425-437 | the node is taken out of the tree before its slots are zeroed; the other entries do not move |
| `Libraries.Library.ReleaseEntry` | src/api/xternal/xlibrary.c:670-701 | both slots of an entry are given back, and no others |
| `Libraries.Library.Add` | src/api/xternal/xlibrary.c:494-566 | the map with the key set to the object; one reference slot and one object slot in use per entry |
| `Libraries.Library.Insert` | src/api/xternal/xlibrary.c:533-562 | the new entry is linked under its reference |
| `Libraries.Library.UpdateIndex` | src/api/xternal/xlibrary.c:569-600 | the item count is the size of the map, and the index lists every entry once in ascending reference order, by its slot |
| `Libraries.Library.WalkCount` | src/api/xternal/xlibrary.c:748-762 | the counting walk counts every node |
| `Libraries.Library.WalkFill` | src/api/xternal/xlibrary.c:765-782 | the filling walk fills the counted array exactly and never passes its end |
| `Libraries.Library.Fill` | src/api/xternal/xlibrary.c:765-782 | one cell is filled and the cursor moves by one |
| `Libraries.WalkKeys` | src/api/xternal/xlibrary.c:569-600 | a walk visits each key of the map once, in ascending order |
| `Libraries.Dropped` | src/api/xternal/xlibrary.c:411-448 | dropping a node and recycling its slots removes exactly its key |
| `Libraries.Inserted` | src/api/xternal/xlibrary.c:533-562 | linking a fresh node adds exactly its key |
| `Text.DecimalInjective` | src/api/auks/auks_cred_repo.c:430-440 | decimal uids are different for different uids |
| `Text.DecimalValue` | src/api/auks/auks_cred_repo.c:114-131 | the digits printed stand for the number, without leading zeros |
| `Text.SignedDecimalInjective` | src/api/auks/auks_cred_repo.c:114-131 | so are their signed forms, which the file names use |
| `CredRepos.UidKey` | src/api/auks/auks_cred_repo.c:424-445 | a decimal uid always fits the key buffer and the reference field |
| `CredRepos.SnapshotUids` | src/api/auks/auks_cred_repo.c:785-799 | the references of a snapshot are the decimal uids of the stored credentials, each once |
| `CredRepos.CredRepo.constructor` | src/api/auks/auks_cred_repo.c:154-232 | initialisation loads the cache directory in read-only mode and then allows writing |
| `CredRepos.CredRepo.Get` | src/api/auks/auks_cred_repo.c:505-533 | the stored credential of the uid, or not found |
| `CredRepos.CredRepo.Remove` | src/api/auks/auks_cred_repo.c:536-601 | refines the removal of one entry and its file, error cases included; every other entry stays in its slot |
| `CredRepos.CredRepo.Add` | src/api/auks/auks_cred_repo.c:416-502 | refines the addition: replacement test, removal of the old entry, insertion and cache file |
| `CredRepos.CredRepo.TakeSnapshot` | src/api/auks/auks_cred_repo.c:785-799 | the index lists every stored uid once, in the order of the decimal forms |
| `CredRepos.CredRepo.CleanOne` | src/api/auks/auks_cred_repo.c:739-772 | the entry visited is still live and its lookup succeeds; it is removed if and only if its end time is before now, or its renewal limit is set and before now; after the step every entry not yet visited still points at the entry it pointed at when the index was built, although slots were borrowed, freed and zeroed |
| `CredRepos.CredRepo.Clean` | src/api/auks/auks_cred_repo.c:717-781 | a credential is left, unchanged, if and only if endtime >= now and (renew_till <= 0 or renew_till >= now); the cleaning refines visiting the uids of the snapshot one by one, and the branch for a lookup that fails is never taken |
| `CredRepos.CredRepo.LoadCache` | src/api/auks/auks_cred_repo.c:604-714 | refines reading the directory entries one by one in read-only mode |
| `RepoRuns.FileNameInjective` | src/api/auks/auks_cred_repo.c:114-131 | no two uids share a cache file |
| `RepoRuns.FileNameMeans` | src/api/auks/auks_cred_repo.c:114-131 | the file of a uid is the prefix and the decimal number, which is negative from 2^31 on |
| `RepoRuns.RemoveMeaning` | src/api/auks/auks_cred_repo.c:536-601 | what a removal does to the entries and the files, and each status |
| `RepoRuns.AddMeaning` | src/api/auks/auks_cred_repo.c:416-502 | when an addition is stored, by renewal limit and end time, and when it is written to its file |
| `RepoRuns.LoadMeaning` | src/api/auks/auks_cred_repo.c:604-714 | which directory entries are read, and that reading one is an addition |
| `RepoRuns.CleanMeaning` | src/api/auks/auks_cred_repo.c:717-781 | whatever the index order, a credential is left, unchanged, if and only if endtime >= now and (renew_till <= 0 or renew_till >= now); a file goes if and only if it is that of a credential that goes and its path fits; the counter is the number of those, and so of the credentials dropped when the unlinks succeed |
| `RepoRuns.CleanPrefix` | src/api/auks/auks_cred_repo.c:739-778 | the state, the counter and the status after any part of the snapshot; the status is that of the last entry |
| `RepoRuns.ReplacementPolicy` | src/api/auks/auks_cred_repo.c:430-475 | after any sequence of additions, read-only mode or not, the credential stored for a uid is the latest offered among those with the lexicographically greatest (renew_till, endtime) |
| `RepoRuns.LatestBestGrows` | src/api/auks/auks_cred_repo.c:455-470 | one more offer replaces the best so far exactly when it is at least as good |
| `RepoRuns.CleanIsApply` | src/api/auks/auks_cred_repo.c:717-781 | the effect of a cleaning does not depend on the order of the index |
| `RepoRuns.RunSteps` | src/api/auks/auks_cred_repo.c:416-781 | the steps of a run are those that the store refines |
| `RepoRuns.AddMirrors` | src/api/auks/auks_cred_repo.c:416-502 | an addition keeps the directory a mirror of the map |
| `RepoRuns.RemoveMirrors` | src/api/auks/auks_cred_repo.c:536-601 | a removal does |
| `RepoRuns.CleanMirrors` | src/api/auks/auks_cred_repo.c:717-781 | a cleaning does |
| `RepoRuns.FreshMirrors` | src/api/auks/auks_cred_repo.c:154-232 | a store that starts over a directory without cache files mirrors it |
| `RepoRuns.RestartMirrors` | src/api/auks/auks_cred_repo.c:604-714 | a restart over the directory that is there keeps it a mirror: the map is the one before without the credentials whose file name is too long |
| `RepoRuns.RunMirrors` | src/api/auks/auks_cred_repo.c:416-781 | over every run of additions, removals, cleanings and restarts the directory mirrors the map |
| `RepoRuns.RestartRecovers` | src/api/auks/auks_cred_repo.c:604-714 | from any mirrored store, after every run, earlier restarts included, loading the directory in any order gives back the stored map without the credentials whose file name is too long; so it gives back the map if and only if every name fits |
| `RepoRuns.LongDirectoryLosesAll` | src/api/auks/auks_cred_repo.c:114-131 | a directory path for which a restart loses everything |
| `Queues.Queue.constructor` | src/api/xternal/xqueue.c:126-168 | a new queue is empty |
| `Queues.Queue.Enqueue` | src/api/xternal/xqueue.c:207-285 | appends at the young end; the queued items are exactly the items of the pool in use |
| `Queues.Queue.Dequeue` | src/api/xternal/xqueue.c:415-447 | takes the oldest entry; releasing its item never fails |
| `Queues.Queue.GetLength` | src/api/xternal/xqueue.c:503-535 | returns the number of queued entries |
| `Queues.Queued` | src/api/xternal/xqueue.c:237-275 | linking in front of the head appends to the sequence |
| `Queues.Unqueued` | src/api/xternal/xqueue.c:415-435 | unlinking the tail removes the oldest |
| `WorkerPool.StepKeeps` | src/auksd/auksd.c:171-252 | every step of every thread keeps the mutex, wake-up, shutdown and accounting invariants |
| `WorkerPool.RunKeeps` | src/auksd/auksd.c:171-252 | so does every run |
| `WorkerPool.NoLostWakeUp` | src/api/xternal/xqueue.c:366-447 | in every reachable interleaving with spurious wake-ups, while a processor sleeps the queue is no longer than the number of woken processors that have not re-checked, one unsent signal aside; a queued connection never meets a pool in which everybody sleeps or has left |
| `WorkerPool.DrainedWhenJoined` | src/auksd/auksd.c:575-602 | when the last join returns, every queued socket was taken in queue order, and what was taken, processed and closed is the same, worker by worker and each exactly once; every accepted socket was queued or else refused and closed by the dispatcher, exactly once |
| `WorkerPool.ShutdownProgress` | src/auksd/auksd.c:575-602 | once the end flag is set every step but a spurious wake-up or an idle poll uses up bounded work, and such a step is always possible until the end |
| `WorkerPool.ProcWaits` | src/auksd/auksd.c:171-252 | a processor can take a step unless it has exited, sleeps uncancelled, or needs the mutex that somebody holds, and then it cannot |
| `WorkerPool.MainWaits` | src/auksd/auksd.c:554-602 | the main thread can take a step unless it is done, joins a worker that has not exited, or polls the queue while somebody holds the mutex, and then it cannot |
| `WorkerPool.CountLaunched` | src/auksd/auksd.c:554-573 | the number of threads that could be created |
| `WorkerPool.LoopsReachLaunched` | src/auksd/auksd.c:594-602 | the cancel and join loops reach exactly the launched threads if and only if none was created after one that could not be |
| `WorkerRun.EveryStepHappens` | src/auksd/auksd.c:171-252 | there is a run in which every kind of step is taken, to the end of the shutdown |
| `Lalr.ReduceKeeps` | src/api/confparse/conf_yacc.c:1329-1408 | a reduction finds its handle with values of the right kinds, keeps the stack well formed and makes progress |
| `Lalr.ShiftKeeps` | src/api/confparse/conf_yacc.c:1285-1313 | a shift does, and consumes a token |
| `Lalr.GotoTable` | src/api/confparse/conf_yacc.c:1396-1406 | the state after a reduction is a legal successor of the state uncovered |
| `Lalr.HandleThere` | src/api/confparse/conf_yacc.c:1319-1387 | a default reduction is only made with its right-hand side on the stack |
| `LalrCorrect.RecognisesGrammar` | src/api/confparse/conf_yacc.c:471-533 | for every token sequence and every stack limit: accepted with tree `bs` if and only if it is the sentence of `bs` and needs fewer entries than the limit; a sentence is never rejected, and given up exactly when it needs as many as the limit |
| `LalrCorrect.GrammarIsYield` | src/api/confparse/conf_yacc.c:471-480 | the start symbol derives, by the rules of the tables, exactly the sentences of block lists |
| `LalrCorrect.RunSentence` | src/api/confparse/conf_yacc.c:1174-1408 | every sentence is accepted with its tree or overflows |
| `LalrCorrect.RunSound` | src/api/confparse/conf_yacc.c:1174-1408 | what is accepted is the sentence of the tree returned |
| `LalrDepth.SentenceDepth` | src/api/confparse/conf_yacc.c:1174-1242 | the depth the stack reaches on a sentence of B blocks, in closed form: the greatest of B + 2 and, for each k, k + d + 5 for a k-th block with d > 0 definitions, k + 4 for an empty one |
| `LalrDepth.ExhaustedIsDeep` | src/api/confparse/conf_yacc.c:1179-1193 | under any limit a run gives up exactly when it would get that deep |
| `LalrDepth.DepthByTokens` | src/api/confparse/conf_yacc.c:1174-1408 | on any input the stack is never deeper than the entries that stand for a token, the tokens to come and two |
| `LalrDepth.ShortInputsDecided` | src/api/confparse/conf_yacc.c:1174-1408 | an input with at least three tokens fewer than the limit (up to 9997 for the real one) never exhausts the stack: it is rejected if and only if it is no sentence |
| `LalrDepth.AutomatonIsGrammar` | src/api/confparse/conf_yacc.c:471-533 | what is accepted is derived from the start symbol by the rules of the tables, what is rejected is not, and an input at least three tokens shorter than the limit is one or the other |
| `LalrParser.NoErrorRule` | src/api/confparse/conf_yacc.c:1505-1532 | no state shifts the error token, so every state is popped |
| `LalrParser.Relocate` | src/api/confparse/conf_yacc.c:1217-1228 | both stacks keep their contents when they move |
| `LalrParser.Grow` | src/api/confparse/conf_yacc.c:1179-1237 | a full stack is doubled and capped at 10000; it fails only when the depth reaches 10000 |
| `LalrParser.LookUp` | src/api/confparse/conf_yacc.c:1251-1283 | a token is read only when the state needs one, and the decision is that for the next token |
| `LalrParser.ReduceStacks` | src/api/confparse/conf_yacc.c:1329-1408 | pop, semantic action and goto do what the automaton does, the read of `yyvsp[1]` included, within bounds |
| `LalrParser.Action` | src/api/confparse/conf_yacc.c:1347-1386 | the semantic actions build the tree of the rule |
| `LalrParser.YYParse` | src/api/confparse/conf_yacc.c:1085-1580 | terminates with 0 and the accepted tree, 1 on rejection, 2 on memory exhaustion, as the automaton does; unless it is exhausted, the stack reached exactly the depth of the run, below 10000; every stack access is in bounds |
| `ConfigFiles.ParseFile` | src/api/confparse/conf_yacc.y:50-71 | the syntax tree of the file if and only if its tokens are derived from the start symbol and the stack suffices, which it does for every file of fewer than 9998 tokens |
| `ConfigFiles.OneEntryFile` | src/api/confparse/conf_yacc.c:64-90 | a block with one definition, in the token numbers of the lexer, is accepted with its names and value |
| `ConfigFiles.YieldMeans` | src/api/confparse/conf_yacc.c:1347-1386 | the symbols of a tree: blocks and definitions stand in the order of the file |
| `RustConfig.Skip` | rust/auks-config/src/lib.rs:200-217 | what remains after white space and comments begins with neither |
| `RustConfig.ByteMeaning` | rust/auks-config/src/lib.rs:200-287 | for every byte: which are white space, comment, part of an identifier, part of a bare value, a quote |
| `RustConfig.Parser.SkipSpaceAndComments` | rust/auks-config/src/lib.rs:200-217 | refines `Skip` |
| `RustConfig.Parser.Identifier` | rust/auks-config/src/lib.rs:219-232 | refines the longest identifier, or an error at the same offset |
| `RustConfig.Parser.Value` | rust/auks-config/src/lib.rs:234-269 | refines the reading of a quoted or bare value |
| `RustConfig.Parser.QuotedValue` | rust/auks-config/src/lib.rs:236-256 | the quoted branch with its escapes and its two errors |
| `RustConfig.Parser.BareValue` | rust/auks-config/src/lib.rs:257-268 | the bare branch |
| `RustConfig.Parser.Expect` | rust/auks-config/src/lib.rs:271-278 | refines the expectation of a byte |
| `RustConfig.Parser.Consume` | rust/auks-config/src/lib.rs:280-287 | moves on if the byte is there |
| `RustConfig.Parser.ParseDefinition` | rust/auks-config/src/lib.rs:189-192 | one definition, with the errors of its parts |
| `RustConfig.Parser.ParseDefinitions` | rust/auks-config/src/lib.rs:184-196 | the inner loop refines the definitions of a block |
| `RustConfig.Parser.ParseBlock` | rust/auks-config/src/lib.rs:181-197 | one block, with the errors of its parts |
| `RustConfig.Parser.Parse` | rust/auks-config/src/lib.rs:178-198 | terminates on every input with the maps or the error, offset included, of the grammar |
| `RustConfigText.RendersParse` | rust/auks-config/src/lib.rs:178-287 | every layout of every document, its gaps, names and values written with the bytes the parser is for, parses to the maps it means, all input consumed |
| `RustConfigText.ParsesRendered` | rust/auks-config/src/lib.rs:178-287 | every input that parses is the text of a document |
| `RustConfigText.AcceptsExactly` | rust/auks-config/src/lib.rs:178-287 | the parser returns given maps if and only if the input is the text of a document that means them |
| `RustConfigText.AnyValueReadsBack` | rust/auks-config/src/lib.rs:234-256 | a value of arbitrary bytes, quoted and escaped, between any gaps, reads back |
| `RustConfigText.OneEntryParses` | rust/auks-config/src/lib.rs:178-287 | a block with one quoted definition, written out |
| `RustConfigText.EscapeMeans` | rust/auks-config/src/lib.rs:236-256 | escaping quote and backslash preserves the value |
| `RustConfigText.LastEntryWins` | rust/auks-config/src/lib.rs:184-195 | a key has the value of its last definition |
| `RustConfigText.LastSectionWins` | rust/auks-config/src/lib.rs:180-197 | a name has the definitions of its last block |
| `RustConfigErrors.ErrorMeaning` | rust/auks-config/src/lib.rs:178-287 | the offset of a syntax error is where the input lacks what the message asks for |
| `Wire.IntRoundTrip` | rust/auks-proto/src/lib.rs:116-154 | every int survives the wire and every four bytes encode one int |
| `Wire.IntValue` | rust/auks-proto/src/lib.rs:116-154 | the number that four bytes stand for |
| `Wire.CastValue` | src/api/auks/auks_buffer.c:178-224 | the casts keep a number modulo 2^32 |
| `Wire.HostBytes` | src/api/auks/auks_buffer.c:178-212 | swapping the word and copying it from little-endian memory gives the big-endian bytes, and back |
| `Wire.TypeCodes` | rust/auks-proto/src/lib.rs:74-104 | the two directions of the message type numbers are inverse |
| `Wire.TypeBytes` | src/api/auks/auks_message.h:82-99 | the four bytes of each of the fifteen message types |
| `Wire.BytesType` | rust/auks-proto/src/lib.rs:42-104 | the message type that any four bytes stand for, or none |
| `CBuffers.GrowthCovers` | src/api/auks/auks_buffer.c:94-107 | the growth, with its cast to int, covers the request exactly for requests below 2^31 |
| `CBuffers.LargeInit` | src/api/auks/auks_buffer.c:94-144 | an initialisation for 2^31 bytes or more either wraps around to a capacity no allocation can have, and fails, or is too short |
| `CBuffers.InitMeaning` | src/api/auks/auks_buffer.c:94-158 | the capacity after an initialisation for less than 2^31 bytes, and the zeros after what is loaded |
| `CBuffers.InitFailsExactly` | src/api/auks/auks_buffer.c:94-144 | for which sizes from 2^31 on an initialisation fails |
| `CBuffers.Buffer.constructor` | src/api/auks/auks_buffer.c:133-144 | the capacity after initialisation, and when it fails |
| `CBuffers.Buffer.Load` | src/api/auks/auks_buffer.c:147-158 | the bytes loaded, then zeros up to the capacity; NULL when the initialisation fails |
| `CBuffers.Buffer.Expand` | src/api/auks/auks_buffer.c:94-130 | the new capacity for every request, wrapped around or not, and the status; the packed bytes are kept, and there is room whenever the growth covers the request |
| `CBuffers.Buffer.PackData` | src/api/auks/auks_buffer.c:227-238 | appends the bytes, or fails with the packed bytes lost; below 2^31 bytes it never fails; when it had to grow the capacity is at most twice the packed bytes + 1022 |
| `CBuffers.Buffer.PackInt` | src/api/auks/auks_buffer.c:178-194 | appends the big-endian bytes |
| `CBuffers.Buffer.PackUid` | src/api/auks/auks_buffer.c:215-218 | the same for a uid |
| `CBuffers.Buffer.UnpackInt` | src/api/auks/auks_buffer.c:197-212 | reads the int at the cursor if the capacity allows it |
| `CBuffers.Buffer.UnpackUid` | src/api/auks/auks_buffer.c:221-224 | the same for a uid |
| `CBuffers.Buffer.UnpackData` | src/api/auks/auks_buffer.c:241-252 | reads the bytes at the cursor if the capacity allows it |
| `CBuffers.Message.constructor` | src/api/auks/auks_message.c:93-121 | type, then length and body unless the body is empty or missing; a body that makes the initialisation fail leaves nothing |
| `CBuffers.Message.Load` | src/api/auks/auks_message.c:163-178 | a load of less than 2^31 bytes never fails and reads the type, out of the zero padding if need be |
| `CBuffers.MarshallLoad` | src/api/auks/auks_message.c:136-178 | a message marshalled and loaded again has the same type and, after it, everything that was packed, then zeros; or the load fails, exactly from 2^31 bytes on |
| `CBuffers.MessageRoundTrip` | src/api/auks/auks_message.c:93-178 | a loaded message says the type, the length (zero for an empty or missing body) and the body it was built from; from 2^31 bytes on the load fails or falls short |
| `RustWire.Writer.PackInt` | rust/auks-proto/src/lib.rs:117-119 | appends the big-endian bytes |
| `RustWire.Reader.Take` | rust/auks-proto/src/lib.rs:177-188 | the bytes, or the exact shortage, and then the position stays |
| `RustWire.Reader.UnpackInt` | rust/auks-proto/src/lib.rs:151-154 | the int at the position |
| `RustWire.Reader.UnpackData` | rust/auks-proto/src/lib.rs:162-170 | refuses a field over 64 MiB first |
| `RustWire.WithData` | rust/auks-proto/src/lib.rs:210-218 | length and data |
| `RustWire.Encode` | rust/auks-proto/src/lib.rs:221-226 | type and body |
| `RustWire.EncodingBytes` | rust/auks-proto/src/lib.rs:221-226 | the first four bytes of a message of each type, and the body after them |
| `RustWire.Decode` | rust/auks-proto/src/lib.rs:229-234 | refines `Decoding`, error cases included |
| `RustWire.DecodingBytes` | rust/auks-proto/src/lib.rs:229-234 | what any input decodes to: cut short, of no known type, too large, or a message |
| `RustWire.EncodeDecode` | rust/auks-proto/src/lib.rs:221-234 | decoding inverts encoding exactly up to a body of 64 MiB |
| `RustWire.DecodeEncode` | rust/auks-proto/src/lib.rs:221-234 | what decodes is the encoding of its result; which inputs decode |
| `WireAgree.PackBoth` | src/api/auks/auks_buffer.c:94-238 | for every sequence of packs the C buffer holds the bytes of the Rust writer whatever reallocations occur, unless a growth fails, and when one does; its capacity is a multiple of 1024 and at most 2 × packed + 1024 |
| `WireAgree.SmallPacksFit` | src/api/auks/auks_buffer.c:94-107 | no growth fails for fields below 2^31 bytes |
| `WireAgree.ReadWithRust` | rust/auks-proto/src/lib.rs:151-188 | a sequence of reads by the Rust reader |
| `WireAgree.ReadWithC` | src/api/auks/auks_buffer.c:197-252 | the same reads by the C buffer |
| `WireAgree.ReadsAgree` | src/api/auks/auks_buffer.c:147-252 | every sequence of reads the Rust reader accepts gives the same values and positions in C after a load |
| `WireAgree.CReadsPadding` | src/api/auks/auks_buffer.c:147-252 | what C accepts beyond that: the reads of the padded input |
| `WireAgree.PackedReadsBack` | rust/auks-proto/src/lib.rs:110-188 | the fields packed are the fields read, anywhere in an input |
| `WireAgree.BodiesAgree` | src/api/auks/auks_message.c:93-121 | the message built in C equals that of `with_data` if and only if the body is not empty |
| `CredWire.RecordSize` | src/api/auks/auks_cred.c:500-554 | a record takes 169 bytes and the capacity: 32937 for the full capacity |
| `CredWire.RecordFields` | src/api/auks/auks_cred.c:500-554 | every field at its place in any larger input |
| `CredWire.CRoundTrip` | src/api/auks/auks_cred.c:500-621 | packing and unpacking in C, in the middle of any buffer |
| `CredWire.ReceivedMeaning` | src/api/auks/auks_cred.c:500-621 | what arrives of each field: times modulo 2^32 from 0 on, flags and status as ints, the data up to the capacity |
| `CredWire.CUnpackedMeaning` | src/api/auks/auks_cred.c:556-621 | which records are refused, and that a wrong principal length stops the decoder with success |
| `CredWire.CRoundTripExact` | src/api/auks/auks_cred.c:500-621 | what arrives equals what was sent if and only if the times are in [0, 2^32), flags and status are ints and the data past the capacity is zero |
| `CredWire.NegativeTimeShifts` | src/api/auks/auks_cred.c:579-590 | a time that does not survive |
| `CCreds.CredPack` | src/api/auks/auks_cred.c:500-554 | appends the record |
| `CCreds.CredUnpack` | src/api/auks/auks_cred.c:556-621 | refines `CUnpacked` |
| `RustCreds.Pack` | rust/auks-cred/src/lib.rs:74-100 | the record the C program makes of the same credential, or the right error and nothing written |
| `RustCreds.Unpack` | rust/auks-cred/src/lib.rs:103-161 | refines `Unpacked` |
| `RustCreds.AcceptsExactly` | rust/auks-cred/src/lib.rs:103-161 | the inputs accepted, lengths and capacity included |
| `RustCreds.UnpackErrors` | rust/auks-cred/src/lib.rs:103-161 | which input gives which error, with its numbers: every check, in order |
| `RustCreds.RustReadsC` | rust/auks-cred/src/lib.rs:103-161 | any C record is read as the used parts of its fields, whatever the pad bytes |
| `RustCreds.SeenMeaning` | rust/auks-cred/src/lib.rs:103-161 | what Rust reads of each field of a C structure |
| `RustCreds.PackUnpack` | rust/auks-cred/src/lib.rs:74-161 | what Rust packs Rust reads back |
| `Dumps.PackRepo` | src/api/auks/auks_cred_repo.c:802-856 | the number of entries and the record of each, in index order; the repository is unchanged and every lookup succeeds |
| `Dumps.DumpLayout` | src/api/auks/auks_cred_repo.c:802-856 | a dump is the number of its records and each record at its place |
| `Dumps.DumpedOnce` | src/api/auks/auks_cred_repo.c:785-856 | it lists every stored credential once, in the order of their decimal uids |
| `Dumps.DumpUnpack` | src/api/auks/auks_api.c:400-445 | the credentials, the failure, or the success that sets no output, on the memory of any loaded reply |
| `Dumps.DumpCount` | src/api/auks/auks_api.c:400-445 | what the count of a dump means: none is a failure, a negative one a success that sets nothing |
| `Dumps.DumpRecords` | src/api/auks/auks_api.c:400-445 | the records are read one after the other, and the dump fails if and only if one of them does |
| `Dumps.CDumpRoundTrip` | src/api/auks/auks_api.c:400-445 | the C decoder reads back every dump, in order |
| `Dumps.ApiDump` | src/api/auks/auks_api.c:448-499 | a reply of 2^31 bytes or more cannot be loaded, one that does not begin with 0, 0, 0, 26 is an error, and any other is unpacked |
| `Dumps.CDumpReplyBound` | src/api/auks/auks_api.c:400-499 | a C client that loads a dump reply gets all the credentials, in order, with up to 65199 of them; from 65200 on the load fails or its buffer is shorter than the reply |
| `Dumps.DecodeDumpReply` | rust/auks-cred/src/lib.rs:217-234 | each error with its numbers, or the records counted |
| `Dumps.RustDumpRecords` | rust/auks-cred/src/lib.rs:217-234 | the records are read one after the other, and the error is that of the first that cannot be read |
| `Dumps.DecodeGetReply` | rust/auks-cred/src/lib.rs:209-214 | the credential of a get reply, its error, or the error for another type |
| `Dumps.RustDumpRoundTrip` | rust/auks-cred/src/lib.rs:217-234 | the Rust decoder reads back the used parts of every credential, in order |
| `Dumps.DumpReplyBound` | rust/auks-proto/src/lib.rs:162-170 | the Rust client gets exactly the credentials of a dump reply up to 2037 of them, and the size error from 2038 on |
| `SessionSpec.AnswerIsReplyOrError` | src/auksd/auksd_req.c:311-397 | every request is answered by its own reply type or by an error; a list request by a ping reply, type 7 by an error |
| `SessionSpec.SamePrincipalMeans` | src/auksd/auksd_req.c:733-786 | two principals are the same if and only if they agree byte for byte up to the first NUL or 128 characters |
| `SessionSpec.StepIsOwn` | src/auksd/auksd_req.c:468-512 | a step of a client who is no administrator installs a credential of its own principal, or, for a user, removes an entry that holds one, or changes no entry |
| `SessionSpec.StepTouches` | src/auksd/auksd_req.c:310-355 | a request concerns one uid: no other entry and no cache file but that of the uid changes, and unless nothing changes the client may change the entry |
| `SessionSpec.DisclosesOwn` | src/auksd/auksd_req.c:733-786 | a credential that is given is in the repository and given only to administrators and to users of its principal; a dump only to administrators who ask for it |
| `SessionSpec.EndsWellByCloseOnly` | src/auksd/auksd_req.c:249-258 | a session that ends well ends with a close request, every request before it having had one reply |
| `SessionSpec.CloseEndsWell` | src/auksd/auksd_req.c:249-258 | and conversely |
| `SessionSpec.SessionReplies` | src/auksd/auksd_req.c:221-265 | each reply of a session is that of its request in the repository the ones before have left |
| `SessionSpec.SessionEnds` | src/auksd/auksd_req.c:221-265 | the first message without a reply ends it: none is left, a close, or a reply that could not be sent, which undoes nothing |
| `SessionSpec.SessionIsOwn` | src/auksd/auksd_req.c:249-258 | over a session that has the repository to itself an entry is unchanged, holds the client's own principal, or (users only) is gone |
| `SessionSpec.SessionDisclosesOwn` | src/auksd/auksd_req.c:558-588 | every credential in a reply of a session that has the repository to itself was in it when the request arrived and is the client's to have; dumps list the repository of that moment |
| `SessionSpec.ReadsAsRoot` | src/api/auks/auks_message.c:163-178 | a request, however short, reads as one for uid 0 if and only if the bytes of the uid that are there are zero |
| `Sharing.SharedEntries` | src/auksd/auksd_req.c:249-258 | over any interleaving of requests of several clients and cleanings, an entry is as in the beginning or as some turn left it that may have changed it then |
| `Sharing.SharedFiles` | src/auksd/auksd_req.c:249-258 | and so is every cache file, with the uid it is named after |
| `Sharing.SharedIsOwn` | src/auksd/auksd_req.c:733-786 | an entry that is new or has changed holds the principal of one of the clients unless one is an administrator; entries disappear only through the cleaner, users and administrators |
| `Sharing.SharedDisclosesOwn` | src/auksd/auksd_req.c:558-588 | a reply discloses only credentials that are in the repository when the request is handled, whoever has changed it since, and that are the client's to have |
| `Sharing.SharedMirrors` | src/api/auks/auks_cred_repo.c:416-781 | over any interleaving the directory goes on mirroring the map |
| `Sharing.SessionIsTurns` | src/auksd/auksd_req.c:249-258 | a session that has the repository to itself is the run of its turns |
| `Sharing.MessageIsTurn` | src/auksd/auksd_req.c:270-408 | what a processor does with a message is one turn, whatever state the others have left |
| `Sharing.CleaningIsTurn` | src/api/auks/auks_cred_repo.c:717-781 | so is a round of the cleaner, whatever the order of its index |
| `Sharing.SessionRemovesOwn` | src/auksd/auksd_req.c:599-669 | what a client who is no administrator makes disappear over a session holds its own principal at that moment, and the client is a user |
| `Requests.Head` | src/auksd/auksd_req.c:310-355 | the type and the uid of a request, from its bytes |
| `Requests.ReplyIs` | src/auksd/auksd_req.c:380-400 | the bytes of every reply |
| `Requests.CloseMeaning` | src/auksd/auksd_req.c:310-355 | a message closes the session if and only if it begins with 0, 0, 0, 5 |
| `Requests.PingMeaning` | src/auksd/auksd_req.c:411-420 | a ping, and a list request, changes nothing and gets a ping reply |
| `Requests.GetMeaning` | src/auksd/auksd_req.c:530-595 | a message that begins with 0, 0, 0, 3 changes nothing, and gets the credential stored under its uid if and only if the client is an administrator, or a user of the same principal; else an error |
| `Requests.RemoveMeaning` | src/auksd/auksd_req.c:599-669 | one that begins with 0, 0, 0, 4 removes the credential stored under its uid on the same condition, and nothing else; when it gets its own reply |
| `Requests.DumpMeaning` | src/auksd/auksd_req.c:685-730 | an administrator who sends 0, 0, 0, 6 gets the dump, anybody else an error |
| `Requests.AddMeaning` | src/auksd/auksd_req.c:424-526 | when an add request is accepted, from its bytes on, and that it is then the addition of the credential it holds; when it gets its own reply |
| `Requests.OtherMeaning` | src/auksd/auksd_req.c:310-376 | any other message changes nothing and gets an error |
| `Requests.OnlyBy` | src/auksd/auksd_req.c:310-355 | an entry disappears only through 0, 0, 0, 4 and its uid, from an administrator or a user of its principal; it is new or changes only through 0, 0, 0, 2 |
| `Exchanges.ClientBytes` | rust/auks-cred/src/lib.rs:171-191 | the bytes of get, remove and add requests |
| `Exchanges.AddReaches` | rust/auks-cred/src/lib.rs:189-191 | an add request of a Rust client reaches the daemon with its blob if and only if that has at most 32768 bytes |
| `Exchanges.CAddReaches` | src/api/auks/auks_api.c:566-600 | so does that of a C client |
| `Exchanges.UidReaches` | rust/auks-cred/src/lib.rs:171-186 | a get or remove request reaches the daemon with its type and uid |
| `Exchanges.ReplyDecodes` | rust/auks-proto/src/lib.rs:229-234 | every reply of the daemon, dumps over 64 MiB aside, decodes in Rust to its type and body |
| `Exchanges.GetExchange` | rust/auks-cred/src/lib.rs:209-214 | a get of a Rust client, from request to result: the used parts of the stored credential exactly when the client may use it, else an error |
| `Exchanges.CGetReply` | src/api/auks/auks_api.c:639-700 | a C client that loads a get reply unpacks the credential as it arrives |
| `Exchanges.AddExchange` | src/auksd/auksd_req.c:424-526 | an add of a Rust client, from request to repository: added exactly when the blob fits, parses, is addressless and the client's to add |
| `Sessions.CheckRwRight` | src/auksd/auksd_req.c:733-786 | allowed if and only if the client is an administrator, or a user whose principal is that of the credential |
| `Sessions.PingReq` | src/auksd/auksd_req.c:411-420 | a ping reply |
| `Sessions.AddReq` | src/auksd/auksd_req.c:424-526 | refines `Add`; the blob lies within the request |
| `Sessions.GetReq` | src/auksd/auksd_req.c:530-595 | refines `Get`, down to the bytes of the reply |
| `Sessions.RemoveReq` | src/auksd/auksd_req.c:599-669 | refines `Remove` |
| `Sessions.DumpReq` | src/auksd/auksd_req.c:685-730 | refines the dump |
| `Sessions.Dispatch` | src/auksd/auksd_req.c:310-355 | the handler of the type |
| `Sessions.Answer` | src/auksd/auksd_req.c:310-376 | one request: new repository and reply, its error reply when the handler fails |
| `Sessions.SendReply` | src/auksd/auksd_req.c:380-400 | the bytes sent are those of the reply |
| `Sessions.ProcessMsg` | src/auksd/auksd_req.c:270-408 | one message: new repository, reply sent, status; a failed load changes nothing |
| `Sessions.ProcessReq` | src/auksd/auksd_req.c:221-265 | the loop refines `Session` on the messages before one that is too large to be loaded, byte for byte in its replies |
| `Retries.ApiAttempt` | src/api/auks/auks_api.c:233-322 | the two statuses after an attempt; the payload is written only after authentication |
| `Retries.ApiRequest` | src/api/auks/auks_api.c:160-348 | attempts go primary, secondary in rounds, at most twice the retries, up to the first that authenticates; the payload is written in that one only; the status is success if and only if send, receive and load are all 0, else the first that is not, and the error of the last attempt when none authenticates; without retries no attempt is made and the plain error returned |
| `Retries.ApiRounds` | src/api/auks/auks_api.c:214-330 | the loops over the retries and the two servers, against the first attempt that authenticates |
| `Retries.TryRequest` | rust/auks-client/src/lib.rs:97-205 | an attempt may be retried if and only if it did not authenticate, and then nothing was written |
| `Retries.AttemptMeaning` | rust/auks-client/src/lib.rs:97-205 | the result of an attempt, step by step, and that the steps up to the authentication allow a retry |
| `Retries.Request` | rust/auks-client/src/lib.rs:72-95 | attempts go round the servers, up to the first that authenticates; the result is the message whose encoding the last attempt received, if its body has at most 64 MiB and every step of the attempt works, else the error of the first step that does not |
| `Retries.RequestRounds` | rust/auks-client/src/lib.rs:72-95 | the loops over the rounds and the servers, at least one round |
| `Retries.FirstPast` | rust/auks-client/src/lib.rs:78-85 | the first attempt that authenticates |
| `Renewers.DueMeans` | src/auksd/auksdrenewer.c:196-240 | the casts do no harm as long as the differences fit an int |
| `Renewers.DueExactly` | src/auksd/auksdrenewer.c:196-240 | and with the casts, for any times: the lifetime and the delay are the differences modulo 2^32 |
| `Renewers.TriedExactly` | src/auksd/auksdrenewer.c:185-244 | exactly the due credentials are handed to renewal |
| `Renewers.RenewerPass` | src/auksd/auksdrenewer.c:183-266 | the counter is the number of credentials looked at before the end flag that are due, could be renewed and were sent back |
| `Renewers.CountMeaning` | src/auksd/auksdrenewer.c:183-266 | the number of credentials handed to renewal for which both works is that number |
| `Renewers.RenewerLoop` | src/auksd/auksdrenewer.c:281-323 | a pass starts when the one before has ended and a period has passed, whichever is later |
| `Renewers.LooksClose` | src/auksd/auksdrenewer.c:297-323 | two looks at a credential are at most period + D or 2 × D apart, whichever is more |
| `Renewers.NeverSkipped` | src/auksd/auksdrenewer.c:192-323 | with period + D and 2 × D at most minlifetime + 1, a credential that lives longer than minlifetime, is in every dump and expires between its looks is handed to renewal at one of them |
| `Renewers.SkippedBeyond` | src/auksd/auksdrenewer.c:192-323 | for every period and D with period + D or 2 × D at least minlifetime + 2, and from any time on, there are two passes of D seconds on schedule between whose looks such a credential expires without being handed to renewal |
| `Renewers.SkippedReceived` | src/auksd/auksdrenewer.c:192-323 | that credential is one that a dump delivers as it was sent, at any time from 1970 to 2072 |

## Left out

- Kerberos, sockets, DNS, polling, timeouts, signals, logging, fork and PAM: outside the program. The part
  of `auks_cred_init` that reads a Kerberos blob is a parameter of the session, storing a credential in a
  cache file and extracting it gives it back, and what an attempt of a client meets is a parameter.
- Failure of allocation, of the mutex and of storing a cache file: assumed away; an unlink fails only when
  the file is missing. A repository without a cache directory (`cachedir` NULL) is not modelled.
- ACL matching: the role of a client is given. Configuration loaders, `conf_lex.c` (tokens are given, with
  the texts it has already cut to 1024 characters), `auks_error.c`, `xmessage.c` and the SPANK plugin.
- The functions of `rust/auks-config` that turn the parsed maps into settings: table look-ups with defaults.
- `String::from_utf8_lossy` in the Rust parser is taken as the identity: identifiers and bare values are cut
  at ASCII bytes and unescaping drops only ASCII bytes, so on a valid string there is nothing to replace.
  Which byte strings are UTF-8 is a parameter of the Rust credential decoder.
- The locks of the repository: its operations are atomic, and so is a request of a session, although get and
  remove lock separately within one remove request.
- The cleaner thread as a thread; the requests it makes are those of `CredRepo.Clean`.
- The queue of the worker pool is a sequence, which `Queues` shows the real one to be; the producer never
  waits, `xqueue_free_contents` is not modelled, and only `pthread_cond_wait` and `pthread_testcancel` are
  cancellation points.
- `program_result` is also set by a parse that fails later; the method returns it and states nothing about it.
- The upper half of the length variable in the add request handler is never initialised; it is taken as zero.
- FreeLists.FreeList.constructor: does not model a default length of zero, which makes a list that cannot be used.
- CBuffers.Buffer.Load: does not model sizes of 2^31 bytes or more for which the initialisation succeeds, since
  the copy then leaves the buffer and what C does is undefined; `CBuffers.LargeInit` says when that is.
- CBuffers.Buffer.PackData: does not model data of 2^31 bytes or more that the expansion neither covers nor fails
  for, for the same reason.
- CBuffers.Buffer.UnpackData: does not model a size so large that the sum of its test wraps around.
- CBuffers.Message.constructor: does not model a body for which the packing leaves the buffer.
- CBuffers.Message.Load: does not model a load whose copy leaves the buffer.
- CBuffers.MarshallLoad: does not model a load whose copy leaves the buffer, for the same reason.
- WireAgree.PackBoth: does not model packs with which the C program leaves its buffer.
- Dumps.ApiDump: does not model a reply whose load leaves the buffer, nor what `Dumps.DumpUnpack` leaves out.
- CCreds.CredUnpack: does not model a negative capacity whose conversion to an unsigned size makes the sum of the
  buffer's test wrap around, so that the read leaves the buffer; every other input is modelled.
- Dumps.DumpUnpack: does not model a dump with such a record, nor a buffer of 2^63 bytes or more.
- Sessions.ProcessMsg: does not model a message whose load leaves the buffer; `Sessions.ProcessReq` neither.
- Sessions.ProcessReq: does not model such a message, nor what other clients do meanwhile; that is in `Sharing`.
- Requests.AddMeaning: does not model messages of 2^32 bytes or more, nor does `Requests.OnlyBy`; none that can be
  loaded is as long.
- SessionSpec.SessionIsOwn: is about a session alone; `Sharing.SharedIsOwn` is the statement about several.
- SessionSpec.SessionDisclosesOwn: is about a session alone; `Sharing.SharedDisclosesOwn` is the statement about several.
- Sharing.SharedEntries: takes a remove request as one turn, although it locks the repository once to look and once
  to remove.
- Exchanges.AddReaches: does not model blobs of 2^31 bytes or more.
- Exchanges.CAddReaches: does not model blobs of 2^31 bytes or more.
- Exchanges.AddExchange: does not model blobs of 2^31 bytes or more.
- WireAgree.ReadWithC: does not model a read so large that the sum of its test wraps around.
- The wrappers `auks_message_pack_int` and so on only forward to the buffer and are called on it directly.
- Renewers.RenewerLoop: sleeps are exact and the clock does not jump.
- Retries.TryRequest: the thirteen fallible steps around the connect loop are grouped before and after it, since
  all of them fail in the same way.
