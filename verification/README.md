# A Dafny model of a code-memory indexer and its launcher

The repository indexes source code for a memory server and ships it behind a verifying Windows
launcher. This project models the parts of it whose correctness is not visible from any one function,
in the form the code has (classes and arrays updated in place where the code updates in place), and
proves what they promise. `dfyconfig.toml` names the files as one project; `Basics` holds what several of
them share.

| files | component |
|---|---|
| `TrieWords`, `AutomatonBfs`, `AutomatonSteps`, `AhoCorasick`, `AutomatonScan`, `AutomatonBatch`, `PatternMasks` | the Aho-Corasick matcher of `internal/cbm/ac.c`: trie, in-place breadth-first completion, the scans over it |
| `CommandLine` | the Windows command line printed by `src/main.c`, and the parser that reads it back |
| `PayloadVerifier` | the payload verification loop with its hash cache, and every handle of the launcher |
| `ArenaArrays` | the bump arena and the growable arrays and node stacks that live on it |
| `DefinitionWalk` | the explicit-stack definition walk, against a recursive descent |
| `IdentTokens` | the linear-probing identifier collector |
| `QuarantineProtocol` | once-only load of the quarantine set and the start/done journal, over all interleavings |
| `CallAttribution`, `SignatureParams` | which definition a call is charged to, and the parameter counter |
| `StarReexports`, `StubWorklist` | the capped in-place closure of Python star re-exports, and the worklist before it |

## How the proofs are laid out

*Matcher.* A state is identified with the word that leads to it (`names`, ghost). `TrieWords` proves
the word-level theory: the longest suffix that is in the trie, how one letter changes it, where failure
links go and what they report. `AutomatonBfs` has the table and the order of the queue,
`AutomatonSteps` what is true of rows, failure links, masks and output links while the completion is
under way, `AhoCorasick` the methods that do it on arrays. `ScanBitmask` and `ScanBatch` are then
proved from the finished tables alone; their results are also stated on the bytes the caller passes
(`BuildAndScan`, `EntriesExact`, `FileListedExactly`). Masks are real 64-bit words; `PatternMasks` gives each word
operation its meaning bit by bit.

*Command line.* `ParseArgument` follows Microsoft's documented rules: n backslashes before a quote are
halved, an odd one makes the quote literal; a `doubled` flag adds the rule of later runtimes that two
quotes inside a quoted part are one literal quote. An unquoted argument ends at a space or a tab
(`BlanksSeparate`). All round trips hold under both settings.

*Launcher.* The system's answers are data (`Answers`, `Disk`). Handles, documents, the hash context and
the heap block are numbers given out by an object `Os`, which knows what each was opened for, only lets
open ones be closed, and records what is open whenever a process is created. `Accepts` and `Passes` are
functions of the answers alone, with every file hashed (`EachTime`) or, as the cache has it, files the
system calls the same hashed once (`OncePerFile`). The code does the second on every disk; what one accepts
the other accepts exactly when listed files that are called the same are alike (`CacheHarmless`), as when
no two of them have one volume and file number (`DifferentAccepts`). `AcceptsExactly` spells out what is
accepted with every file hashed.

*Definition walk.* `Visits` is the recursive descent, `Peak` the number of frames it would pile up.
`ScopeBelow` and `BelowOthers` say for every kind of node what is visited below it and under which scope.

*Identifiers.* `Run` is what the probing table and the buffer do, offer by offer, `Collected` what the
collector is for; the methods are proved equal to the first, and the lemmas say when the two agree: as
long as no identifier is turned away by a full table, exactly when none is lost to another
(`IntendedExactly`), and `LostExactly` tests that on a given list.

*Quarantine.* A run is any interleaving of any number of threads, cut off anywhere (a crash); every mark
is either written or lost. `Open` is the supervisor's reader of the journal, mark by mark; its suspects are
compared with the files being worked on at the end of the run.

*Re-exports.* A route is a chain of star imports, and `Rounds` the number of passes a name needs to come
back along it, from the order of the import table alone. The table at every point of every pass holds
exactly the names whose routes were in time. Of the routes that bring a name one is the first at every
module on the way (`Supplies`): it says whose class a module gets, and in which place.

## What the code does that its words do not say

- `ac.c` lines 386 and 400 speak of patterns beyond the 64th; only ids below 64 are ever reported, and
  following `output_next` never adds one (`LinkAddsNothing`).
- An empty pattern does not match everywhere: the bitmask scan reports it only where the text has a
  letter with which no non-empty pattern begins (`OccursMeansSubstring`), and the batch scan not even
  there when the automaton is at its root (`BatchAgreesExactly`, `BatchMissesEmptyPattern`).
- `resolve_reexports` says it iterates to a fixed point; it stops after eight rounds. Each module ends
  up with exactly the names that take at most eight (`ResolveReexports`), so the promise is kept exactly
  when every reachable name does (`FixedPointExactly`): always when modules only star-import modules
  handled before them (`BackwardExactly`), and not for a chain of more than eight handled the other way
  round (`ChainExactly`).
- A file is a suspect when its last written mark is a start (`SuspectsByLastMark`). That is in flight
  unless a done mark of it was lost (`SuspectsAreInFlight`, `LostDoneMisleads`). The other way round, a file
  in flight is no suspect exactly when another thread's done mark came last, or its start was lost
  (`HiddenExactly`, `HiddenByAnother`): with two threads in one file, marks S, S, D hide it
  (`OthersDoneHides`). If no two threads are at one file at once and no mark is lost, the suspects are
  exactly the files in flight (`SuspectsExactly`).
- A quarantined file gets a done mark without a start mark, and so does a file whose result could not be
  allocated; starts and dones balance exactly when such marks and lost ones cancel (`JournalBalances`).
- The classes inside wrapper nodes of a class body are visited before the body's own classes, the last
  wrapper first (`DefinitionWalk.NestedClasses`); only plain and namespace descent is in source order.
- The collector records an identifier before it knows whether it fits. Its table compares `hash | 1`, so
  it can lose one identifier to another exactly when those agree (`ConfusedExactly`), even with different
  hashes (`DifferentHashesConfused`); with equal hashes the later one is always lost
  (`EqualHashLosesLater`), with different ones exactly when the even cell where the key starts holds
  another key (`LostExactly`).
- A lone parameter that begins with `void` and a space is counted as none (`VoidPointerIsMissed`).

## Model

| member | source | states |
|---|---|---|
| PatternMasks.HasPatternBit | internal/cbm/ac.c:28-28 | below 64, `1ULL << q` has bit q and no other |
| PatternMasks.HasClearLowest | internal/cbm/ac.c:29-29 | `b & (b - 1)` removes exactly the lowest set bit |
| PatternMasks.LowestBitIsLowest | internal/cbm/ac.c:392-392 | counting trailing zeros gives a bit that is set, and none below it is |
| TrieWords.LongestStep | internal/cbm/ac.c:243-246 | after one more letter the longest trie suffix depends only on the previous one and the letter, so one table lookup per letter is enough |
| TrieWords.MissingChild | internal/cbm/ac.c:131-131 | without a child, the transition is that of the failure state on the same letter |
| TrieWords.ChildFailWord | internal/cbm/ac.c:123-123 | the failure word of a child is where the parent's failure word goes on that letter |
| TrieWords.ReportsViaFail | internal/cbm/ac.c:124-124 | from depth 2 on, a state reports a pattern exactly when it is its own or its failure state reports it |
| TrieWords.ReportsAtDepthOne | internal/cbm/ac.c:109-115 | a depth-1 state, which inherits nothing, reports its own pattern only |
| TrieWords.ReportsAtPrefix | internal/cbm/ac.c:243-246 | what the state reached reports is exactly the patterns that are suffixes of the text read |
| AutomatonBfs.AddState | internal/cbm/ac.c:81-83 | creating a state for a missing cell keeps the table the exact trie of one more word |
| AutomatonBfs.ShallowerExpanded | internal/cbm/ac.c:117-134 | every state shallower than the head of the queue has been expanded |
| AutomatonBfs.NoDeeperQueued | internal/cbm/ac.c:117-134 | every state no deeper than the head has been queued |
| AutomatonBfs.EnqueueChild | internal/cbm/ac.c:122-129 | a child found during expansion was never queued before, and queueing it keeps the depth order |
| AutomatonBfs.AllExpanded | internal/cbm/ac.c:117-117 | when the queue runs empty every non-root state has been expanded |
| AutomatonSteps.FailRowFinished | internal/cbm/ac.c:123-131 | when a state is expanded the row of its failure state is already final and shallower |
| AutomatonSteps.RootStep | internal/cbm/ac.c:109-115 | queueing a root child keeps the whole completion invariant |
| AutomatonSteps.MissingStep | internal/cbm/ac.c:130-132 | filling a missing cell from the failure row keeps the whole completion invariant |
| AutomatonSteps.ChildStep | internal/cbm/ac.c:122-129 | failure link, mask union, output link and queueing of a child keep the whole completion invariant |
| AutomatonSteps.FinishCompleting | internal/cbm/ac.c:117-138 | when the queue is empty every cell leads to the longest trie suffix, every mask is exactly the patterns below 64 to report, every output link is the immediate failure state or none |
| AutomatonSteps.FailureStandsEarlier | internal/cbm/ac.c:117-129 | in the order of the queue a state comes after its failure state |
| AhoCorasick.QueueFits | internal/cbm/ac.c:106-107 | distinct non-root states fill at most n - 1 of n cells, and n - 1 exactly when all are there |
| AhoCorasick.StatesArePrefixes | internal/cbm/ac.c:185-214 | the state count is the number of distinct mapped pattern prefixes |
| AhoCorasick.Automaton.BuildTrie | internal/cbm/ac.c:72-99 | the table is the trie of the pattern prefixes with root self-loops; masks and lists hold each state's own patterns; the states allotted suffice |
| AhoCorasick.Automaton.BuildFailure | internal/cbm/ac.c:102-138 | in place, the trie becomes the complete automaton; what its queue popped is every non-root state once, in non-decreasing depth |
| AhoCorasick.Automaton.Expand | internal/cbm/ac.c:117-134 | the head of the queue is popped, its row completed, the invariant kept for the next |
| AhoCorasick.Automaton.ShrinkTables | internal/cbm/ac.c:141-163 | cutting the tables to the states in use leaves a complete automaton |
| AhoCorasick.Build | internal/cbm/ac.c:176-218 | for any patterns and any in-range alphabet map the result is a finished automaton for the mapped patterns, or null exactly when there are none; its state count is that of the trie |
| AutomatonScan.NextState | internal/cbm/ac.c:243-245 | one lookup keeps the state at the longest suffix of the text read that begins some pattern |
| AutomatonScan.ScanBitmask | internal/cbm/ac.c:236-249 | bit p is set exactly when p is a pattern below 64 that occurs in the mapped text; no other bit is |
| AutomatonScan.BuildAndScan | internal/cbm/ac.c:176-249 | for all texts: without a map the bit of a non-empty text is set exactly when it is below 64 and its bytes stand somewhere in the scanned text, under a map when its letters do; the bit of an empty text exactly when some byte has a letter that begins no other text |
| AutomatonScan.OccursOnBytes | internal/cbm/ac.c:194-200 | without a map every byte is its own letter, with one its letter is the map's entry |
| AutomatonScan.FoundIsOccurs | internal/cbm/ac.c:243-246 | some prefix's state reports a pattern exactly when the pattern occurs in the text |
| AutomatonScan.OccursMeansSubstring | internal/cbm/ac.c:109-115 | reporting means being a substring, in all texts, exactly for the non-empty patterns |
| AutomatonBatch.LinkAddsNothing | internal/cbm/ac.c:125-128 | an output link leads to a shallower state whose ids the state already has |
| AutomatonBatch.NewIdsExactly | internal/cbm/ac.c:382-407 | the ids listed for a name are exactly those of its letters' masks |
| AutomatonBatch.NameIds | internal/cbm/ac.c:374-408 | the ids listed for a name are exactly those below 64 that occur in it, each once |
| AutomatonBatch.ReportState | internal/cbm/ac.c:386-406 | one letter adds exactly the ids of the state not seen yet, as far as there is room, and the output walk ends |
| AutomatonBatch.ScanBatch | internal/cbm/ac.c:367-410 | the first `max_matches` entries of the list of all matches, in name order; an entry for a non-empty pattern means that it is below 64 and stands in the bytes from the name's offset on, within its length, and with room to spare every such pair has one |
| AutomatonBatch.AllEntriesExact | internal/cbm/ac.c:374-405 | the unbounded list has an entry for a name and a non-empty pattern exactly when the pattern, below 64, stands somewhere in the name's bytes |
| AutomatonBatch.BatchAgreesWithScan | internal/cbm/ac.c:367-410 | for a non-empty pattern the batch scan and the bitmask scan report the same |
| AutomatonBatch.BatchAgreesExactly | internal/cbm/ac.c:388-388 | they agree on a pattern for all texts exactly when it is non-empty or every letter begins some pattern |
| AutomatonBatch.BatchMissesEmptyPattern | internal/cbm/ac.c:388-388 | patterns "" and "ab" and text "b": only the bitmask scan reports the empty one |
| AutomatonBatch.ScanLz4Batch | internal/cbm/ac.c:298-349 | the first `max_matches` of the files whose scan reports something |
| AutomatonBatch.FileMatchesInOrder | internal/cbm/ac.c:321-346 | file indices strictly increase, each mask is the single scan of its file, and no reporting file is missing |
| AutomatonBatch.FileListedExactly | internal/cbm/ac.c:321-346 | a file is listed with a mask exactly when it has data and positive lengths, LZ4, given the compressed and then the original length, yields some text, and the mask is that text's and not zero |
| CommandLine.BodyParses | src/main.c:692-725 | what is written between the quotes of an argument parses to exactly the argument |
| CommandLine.ArgumentsRoundTrip | src/main.c:675-740 | printing any argument list and parsing it gives the list back |
| CommandLine.CommandRoundTrip | src/main.c:751-760 | behind the quoted executable, the parsed vector is the executable followed by the launcher's arguments |
| CommandLine.PrintedBody | src/main.c:692-725 | a run of n backslashes is written as 2n before the closing quote, as 2n + 1 before a quote of the argument, and as n before anything else |
| CommandLine.PrintedArguments | src/main.c:680-689 | every argument begins with a quote, and with a space before it if it is not the first |
| CommandLine.AppendCommandArgument | src/main.c:675-726 | succeeds exactly when separator, quoted text and terminator fit; earlier text is unchanged; on success the buffer is terminated at the new offset |
| CommandLine.AppendTurn | src/main.c:692-725 | one turn of the quoting loop writes exactly the next run and unit, or fails only if the whole text cannot fit |
| CommandLine.BuildMcpArguments | src/main.c:728-740 | the buffer holds the text of all arguments but the first, or failure exactly when it does not fit |
| CommandLine.AssembleCommand | src/main.c:742-760 | the command buffer is the quoted executable and the argument text, or failure exactly at the length limit |
| CommandLine.LaunchMcp | src/main.c:728-760 | from argument vector to parsed command line through both buffers: the payload's argument tail is the launcher's |
| PayloadVerifier.CacheHit | src/main.c:1115-1142 | a cached entry with the same identity guards the path, and if identities are sound has the size and hash that reading again would give |
| PayloadVerifier.LookupExact | src/main.c:1116-1126 | looking up a record's file finds what was hashed for the first record whose file is called the same, and nothing exactly when this record is that first one |
| PayloadVerifier.VerifyFile | src/main.c:1098-1145 | for every disk the handles balance and an accepted path is guarded; acceptance is exactly that the own size, and size and hash of the first cached file with its identity or else its own, match; the file joins the cache exactly if not in it |
| PayloadVerifier.CheckRecord | src/main.c:1082-1165 | one turn of the record loop, for every disk: it succeeds exactly when the record is right with the hash of the first record with the same file, and the cache stays exactly the first files of their kind |
| PayloadVerifier.VerifyRecords | src/main.c:1073-1168 | for every disk the handles balance, accepted records are all guarded, the guard array holds at most one entry a record, and acceptance is exactly that of hashing once per file; if identities are sound, or no two listed files have one volume and file number, that of hashing every file |
| PayloadVerifier.AcceptsExactly | src/main.c:1092-1168 | what is accepted with every file hashed: exactly a manifest equal to the receipt whose complete records state the size and the 64 lower-case hex digits of files below the root, no two names alike but for case, with the three executables and the entry |
| PayloadVerifier.DifferentAccepts | src/main.c:371-375 | listed files that differ pairwise in volume or file number are accepted exactly as with every file hashed |
| PayloadVerifier.RepeatAccepted | src/main.c:1116-1126 | a later file with the volume and file number of an earlier, first one is accepted exactly on that one's size and hash, and its own size |
| PayloadVerifier.CacheHarmless | src/main.c:1115-1145 | what is accepted with one way of hashing is accepted with the other exactly when listed files that are called the same have equal content |
| PayloadVerifier.AcceptedPathsDistinct | src/main.c:1106-1113 | accepted records agree with the receipt and name pairwise different files ignoring case |
| PayloadVerifier.LauncherStage | src/main.c:1170-1186 | the launcher's file is held; for every disk it is accepted exactly when it has the entry file's size and is called the same as it or has its stated hash |
| PayloadVerifier.ReleaseGuards | src/main.c:606-623 | releases every guard and nothing else |
| PayloadVerifier.LaunchPayload | src/main.c:742-812 | the process is created at most once, with a handle open for every record, the launcher's file and three directories; every handle is closed on every way out |
| PayloadVerifier.CleanUp | src/main.c:1218-1231 | whatever is held when the cleanup label is reached is closed, and nothing else |
| PayloadVerifier.StableLauncher | src/main.c:944-1244 | for every disk and on every way out exactly what was open before is open again, and the outcome is the one `OncePerFile` verification determines; at most one process is created, exactly when that passes and nothing fails before, with everything held open; if identities are sound, or all files differ in volume or file number, all this is as with every file hashed |
| ArenaArrays.Arena.Alloc | internal/cbm/arena.c:35-55 | a new aligned range apart from all earlier ones; a request that fits the rest of the block is met there and opens none, any other at the start of a new block of at least twice the size, exactly when memory and one of 256 slots are there |
| ArenaArrays.ItemsApart | internal/cbm/cbm.c:105-118 | the bytes of an item lie within its array and end before those of the next begin |
| ArenaArrays.Arena.Grow | internal/cbm/arena.c:16-33 | a block of twice the size or the size asked for, exactly when memory and a slot are there |
| ArenaArrays.Arena.Destroy | internal/cbm/arena.c:102-107 | every block is freed once and the arena is empty |
| ArenaArrays.GrowArray.Push | internal/cbm/cbm.c:105-118 | appends, or does nothing exactly when full without room; no other array on the arena changes; growth has copied fewer than two items a push |
| ArenaArrays.GrowArray.Grow | internal/cbm/extract_node_stack.h:34-45 | moving to a new range keeps the contents and writes only there |
| ArenaArrays.GrowArray.Init | internal/cbm/extract_node_stack.h:26-30 | an empty stack with the capacity asked for, or none without memory |
| ArenaArrays.GrowArray.Pop | internal/cbm/extract_node_stack.h:50-52 | the last item, and the rest stays |
| ArenaArrays.GrowArray.PushChildren | internal/cbm/extract_node_stack.h:66-84 | appends the children reversed, so the first is popped first, and all of them exactly when every push in turn finds room; no other array changes |
| ArenaArrays.GrowArray.ReverseFrom | internal/cbm/extract_node_stack.h:75-83 | the swap loop reverses exactly the new segment |
| ArenaArrays.PlacedKept | internal/cbm/cbm.c:105-118 | an array in one range does not notice writes to another, nor new ranges |
| DefinitionWalk.WalkStack.Push | internal/cbm/extract_defs.c:5665-5692 | pushes the frame, or warns and drops it exactly at the largest capacity doubling can reach |
| DefinitionWalk.CollectChildren | internal/cbm/extract_defs.c:5710-5732 | the cursor pass gives the children in order exactly for wide nodes with memory, and else asks for indexed access |
| DefinitionWalk.PushChildrenReverse | internal/cbm/extract_defs.c:5734-5744 | whichever way they are enumerated, the stack comes to stand for all children ahead of the rest |
| DefinitionWalk.PushNestedClassNodes | internal/cbm/extract_defs.c:5748-5773 | ... for the nested classes in their own order |
| DefinitionWalk.PushClassBodyChildren | internal/cbm/extract_defs.c:5831-5853 | ... for the classes of the first body container, or for all children without one |
| DefinitionWalk.WalkDefs | internal/cbm/extract_defs.c:6235-6370 | the ceiling is met exactly when the descent piles up more frames than the largest stack holds; below it visits and scopes are those of the recursive descent, at it a part of them in order |
| DefinitionWalk.ScopeBelow | internal/cbm/extract_defs.c:5807-5828 | below a namespace or class named n, visited under o, the scope is o, a dot and n; under no scope it is n as a top-level name; below an unnamed one it stays |
| DefinitionWalk.BelowOthers | internal/cbm/extract_defs.c:6256-6342 | specially handled nodes, functions, Rust impl blocks and all other nodes: nothing below, or all children under the same scope |
| DefinitionWalk.BodyLeads | internal/cbm/extract_defs.c:5831-5849 | a class leads to the nested classes of its first body container |
| DefinitionWalk.ChainScope | internal/cbm/extract_defs.c:6351-6359 | at the end of a chain of named namespaces and classes the scope is the names joined by dots |
| DefinitionWalk.TopChainScope | internal/cbm/extract_defs.c:6351-6359 | at file level the first of them is qualified as a top-level name |
| DefinitionWalk.WrappedFirst | internal/cbm/extract_defs.c:5748-5773 | of two classes and two wrapped ones in a body the wrapped come first, the last wrapper's before the other's |
| DefinitionWalk.DefaultCeiling | internal/cbm/extract_defs.c:5654-5692 | with the default ceiling of 8 M frames the stack can use all of them, with one below 256 none |
| DefinitionWalk.PeakAtMostSize | internal/cbm/extract_defs.c:6239-6369 | the descent never piles up more frames than the tree has nodes |
| DefinitionWalk.NothingTwice | internal/cbm/extract_defs.c:6241-6368 | no node is visited more often than it occurs in the tree |
| DefinitionWalk.PlainInPreOrder | internal/cbm/extract_defs.c:6344-6367 | trees of plain and namespace nodes are visited completely in source pre-order |
| IdentTokens.RecordedStays | internal/cbm/extract_defs.c:59-69 | filling an empty cell keeps every stored key reachable from its start slot |
| IdentTokens.HashIsPolynomial | internal/cbm/extract_defs.c:45-51 | the hash is the 32-bit value of the bytes as a polynomial at 31 |
| IdentTokens.OneByteApart | internal/cbm/extract_defs.c:45-51 | tokens of one length that differ in exactly one byte have different hashes |
| IdentTokens.InsertRecords | internal/cbm/extract_defs.c:55-69 | probing changes nothing when the key is reachable or the table full, and else makes it reachable through one empty cell |
| IdentTokens.RunRoom | internal/cbm/extract_defs.c:95-108 | as long as no identifier is turned away by a full table, everything offered is recorded and nothing is taken twice |
| IdentTokens.FreeCellSuffices | internal/cbm/extract_defs.c:55-69 | a table with a free cell before the last identifier has turned none away |
| IdentTokens.FewNamesSuffice | internal/cbm/extract_defs.c:55-69 | with at most as many different identifiers as cells none is turned away, however often they occur |
| IdentTokens.TakesWhatIsIntended | internal/cbm/extract_defs.c:70-79 | if none is turned away and none is lost, exactly the first occurrences that fit are taken, however often identifiers repeat |
| IdentTokens.IntendedExactly | internal/cbm/extract_defs.c:53-80 | if none is turned away, exactly the intended identifiers are taken if and only if no new, fitting one is taken for seen |
| IdentTokens.RecordedExactly | internal/cbm/extract_defs.c:55-69 | a table with a free cell takes a token for seen exactly when a name offered has its key, and its hash too or the key's even start cell holds another key |
| IdentTokens.LostExactly | internal/cbm/extract_defs.c:55-70 | on a given list: a new, fitting identifier is lost exactly when an earlier one has its key, and its hash too or the even start cell holds another key |
| IdentTokens.OneByteLost | internal/cbm/extract_defs.c:55-70 | among names one byte apart from it, an identifier is lost exactly when one has its key and the even start cell holds another key |
| IdentTokens.NothingMissed | internal/cbm/extract_defs.c:70-79 | of the identifiers of 1 to 63 bytes none is missing from the intended ones, unless there are 40 or it does not go into the 512 bytes |
| IdentTokens.JoinedReadsBack | internal/cbm/extract_defs.c:73-78 | cut at its spaces the text gives the tokens back |
| IdentTokens.ConfusedExactly | internal/cbm/extract_defs.c:55-69 | an identifier can make the collector lose another, new and fitting, in some run exactly when their keys are equal |
| IdentTokens.EqualHashLosesLater | internal/cbm/extract_defs.c:55-70 | the later of two identifiers with one hash is always lost, if the earlier was not turned away |
| IdentTokens.DifferentHashesConfused | internal/cbm/extract_defs.c:55-69 | after "ce" and "b" the identifier "c" is lost, although all hashes differ |
| IdentTokens.IdentBuffer.Record | internal/cbm/extract_defs.c:55-69 | the probe in place says whether the key is reachable and leaves the table that inserting gives |
| IdentTokens.IdentBuffer.TryAppend | internal/cbm/extract_defs.c:53-80 | a token goes in exactly when not recorded and it fits; the buffer is the space-joined list of tokens |
| IdentTokens.CollectIdents | internal/cbm/extract_defs.c:95-119 | what is taken is the run of the collector, at most 40 of 1 to 63 bytes each, and the text of less than 512 bytes reads back as it; none twice while the table has a free cell, or with at most 128 different identifiers, or in any case if none is turned away, and then the intended ones exactly if none is lost; different keys lose none |
| QuarantineProtocol.LoadInvAlways | internal/cbm/cbm.c:639-658 | at every point of every run at most one thread is loading, and every thread agrees with the shared state |
| QuarantineProtocol.SetFixedForever | internal/cbm/cbm.c:648-656 | a published set is never changed |
| QuarantineProtocol.LoadedOnceAnswersAgree | internal/cbm/cbm.c:639-658 | the file is loaded at most once, no answer precedes publication, and every answer is whether the file is in the one published set |
| QuarantineProtocol.JournalInvAlways | internal/cbm/cbm.c:695-731 | starts and dones, written or lost, and files finished without a start balance with the workers inside |
| QuarantineProtocol.JournalBalances | internal/cbm/cbm.c:695-731 | a quarantined file has no start mark; for any file starts minus dones is the number of workers inside exactly when lost marks and finishes without a start cancel out, and only failed or quarantined files have the latter |
| QuarantineProtocol.EmptyLeavesNoMark | internal/cbm/cbm.c:551-554 | no mark is ever written or lost, and no answer given from the set, for an empty path |
| QuarantineProtocol.ReturnsWithDone | internal/cbm/cbm.c:695-703 | an extraction goes on with its file or returns with a done mark, quarantined or not |
| QuarantineProtocol.QuarantinedNeverInside | internal/cbm/cbm.c:725-731 | no file of the published set is ever being parsed |
| QuarantineProtocol.ReadSuspects | src/mcp/mcp.c:4485-4545 | the loop over the journal computes the open paths: a start opens a path not open, a done mark closes it |
| QuarantineProtocol.SuspectsByLastMark | src/mcp/mcp.c:4477-4541 | the suspects are exactly the paths whose last mark is a start, each once |
| QuarantineProtocol.OldestFirst | src/mcp/mcp.c:4482-4525 | the suspects are listed in the order of the starts that opened them |
| QuarantineProtocol.SuspectsAreInFlight | internal/cbm/cbm.c:536-550 | after a crash anywhere, a suspect was being worked on, unless a done mark of it was lost |
| QuarantineProtocol.InFlightAreSuspects | internal/cbm/cbm.c:536-550 | if no two threads are at one file at once and no start of it is lost, a file being worked on is a suspect |
| QuarantineProtocol.SuspectsExactly | internal/cbm/cbm.c:536-550 | under both conditions the suspects are exactly the files in flight |
| QuarantineProtocol.HiddenExactly | internal/cbm/cbm.c:536-550 | a file that a thread works on is no suspect exactly when, since the thread went inside, its last written mark is a done mark, or none was written and it was not open before |
| QuarantineProtocol.HiddenByAnother | internal/cbm/cbm.c:536-550 | a done mark that hides such a file is that of another thread leaving it |
| QuarantineProtocol.OthersDoneHides | src/mcp/mcp.c:4528-4541 | a run with marks S, S, D where one thread is still inside and the file is no suspect |
| QuarantineProtocol.LostDoneMisleads | internal/cbm/cbm.c:556-560 | a run where a finished file is a suspect because its done mark was dropped |
| CallAttribution.InnermostIsInnermost | internal/cbm/cbm.c:976-996 | the definition found has the smallest span containing the line, the first on ties; none only if none contains it |
| CallAttribution.FindInnermost | internal/cbm/cbm.c:976-993 | the loop finds that definition |
| CallAttribution.AttributeCalls | internal/cbm/cbm.c:971-1034 | in place, a definition becomes recursive exactly with a charged self-call, unguarded exactly if there are some and none is under a conditional, its counters grow by the charged loop calls with a listed name, and nothing else changes |
| CallAttribution.BareSelfCall | internal/cbm/cbm.c:448-455 | a charged call by a bare name is a self-call exactly when the name is the definition's |
| CallAttribution.QualifiedSelfCall | internal/cbm/cbm.c:456-463 | one through a receiver exactly when the name is the definition's and the receiver is self, this, cls or @self |
| CallAttribution.ReceiverSelfCall | internal/cbm/cbm.c:464-474 | in a method with receiver `(v T)` also through v |
| CallAttribution.UnnamedSelfCall | internal/cbm/cbm.c:408-436 | in a method with an unnamed receiver `(T)` not through T |
| CallAttribution.ListedInAnyCase | internal/cbm/cbm.c:366-382 | a name is listed exactly when it differs from a listed one at most in the case of its letters |
| CallAttribution.ThroughFieldIsOther | internal/cbm/cbm.c:448-476 | a call through a field, of self or anything else, is never a self-call |
| SignatureParams.CountParams | internal/cbm/cbm.c:478-526 | the counter returns the specified count, 0 without a signature |
| SignatureParams.CountsParameters | internal/cbm/cbm.c:478-526 | n comma-joined parameters with nested brackets count n, except no text at all or a lone parameter taken for void, which count 0 |
| SignatureParams.CommasInBrackets | internal/cbm/cbm.c:494-508 | a list with commas only inside one pair of round, square, curly or angle brackets is one parameter, unless it looks like `void` |
| SignatureParams.MapIsOneParameter | internal/cbm/cbm.c:494-508 | `f(map<int,int> m)` counts 1 |
| SignatureParams.PlainListCount | internal/cbm/cbm.c:509-525 | text without brackets and commas counts 1, unless it is only the six kinds of white space or looks like `void` |
| SignatureParams.VoidTestReadsParam | internal/cbm/cbm.c:516-524 | the void test depends on the lone parameter only, not on what follows the list |
| SignatureParams.VoidPointerIsMissed | internal/cbm/cbm.c:516-524 | `f(void *p)` counts 0 |
| StarReexports.CopyStar | scripts/gen-py-stdlib.py:264-291 | after one star import the module has exactly its own and the target's names, its own entries first and unchanged, no copied name twice; an added class is the target's first of its name, and what is added stands in the order in which the target first has it |
| StarReexports.ArrivedStep | scripts/gen-py-stdlib.py:262-267 | what has arrived by the next star import is what had, and for the importing module what had arrived at the other one |
| StarReexports.SupplyStep | scripts/gen-py-stdlib.py:268-291 | a name that a star import brings for the first time is supplied along it |
| StarReexports.SuppliedOnce | scripts/gen-py-stdlib.py:259-291 | a name is supplied to a module along one route only |
| StarReexports.FirstStarSupplies | scripts/gen-py-stdlib.py:262-282 | of several star imports the first that leads to a name supplies it |
| StarReexports.OrderCopied | scripts/gen-py-stdlib.py:268-291 | one more star import leaves what a module was given in the order of arrival |
| StarReexports.ClosedAlong | scripts/gen-py-stdlib.py:259-291 | in a closed table every name has come along every route |
| StarReexports.UnchangedIsClosed | scripts/gen-py-stdlib.py:259-261 | a round that changes nothing leaves a closed table |
| StarReexports.Resolver.RunRound | scripts/gen-py-stdlib.py:260-291 | one round in place brings in exactly the names whose routes are in time |
| StarReexports.Resolver.ResolveReexports | scripts/gen-py-stdlib.py:252-291 | for every order of the import table, cycles included, each module has exactly the names at most eight rounds away; when the loop settled, all reachable ones; every added class is the first of its name in the module that supplies the name, and what was added stands in the order of arrival |
| StarReexports.FinalNames | scripts/gen-py-stdlib.py:252-291 | the same, name by name, for any state the loop can end with |
| StarReexports.FixedPointExactly | scripts/gen-py-stdlib.py:254-259 | the promised fixed point is reached exactly when every reachable name is at most eight rounds away |
| StarReexports.NearArrives | scripts/gen-py-stdlib.py:259-259 | in any order, k star imports take at most k rounds |
| StarReexports.ForwardExactly | scripts/gen-py-stdlib.py:259-262 | if modules are only star-imported by modules handled before them, they take exactly k |
| StarReexports.BackwardExactly | scripts/gen-py-stdlib.py:259-262 | if modules only star-import modules handled before them, one round reaches everything |
| StarReexports.ChainExactly | scripts/gen-py-stdlib.py:259-259 | in a forward chain of n star imports the last name reaches the first module exactly if n is at most eight |
| StubWorklist.CollectAllStubs | scripts/gen-py-stdlib.py:227-249 | the worklist ends and parses each module once; it gathers the first modules and what gathered modules star-import; each is parsed from the file found for it after a star import has called for it, or in its turn, the first modules last to first and each after all that the ones behind it lead to |
| StubWorklist.GatheredIsLeast | scripts/gen-py-stdlib.py:227-249 | so any set with the first modules that is closed under the star imports of gathered modules holds everything gathered |
| StubWorklist.ParsedInTurn | scripts/gen-py-stdlib.py:223-232 | a module that nothing star-imports is parsed from the file listed last for it, after all modules listed behind it |

## Left out

- AhoCorasick.Build: alphabet map values below the alphabet size are required and allocations succeed, as the C code assumes without checking; table indices are unbounded integers.
- AhoCorasick.Automaton.ShrinkTables: `realloc` is taken to succeed; when it fails the C code keeps the larger table, which the scans cannot tell apart.
- AutomatonBatch.ScanLz4Batch: LZ4 is an arbitrary function; the C code repeats the bitmask loop inline where the model calls `ScanBitmask`; the shared buffer is not modelled.
- CommandLine.AppendCommandArgument: the guard against SIZE_MAX backslashes cannot be reached in a real buffer and has no counterpart; null pointers are not modelled; text is NUL-free.
- PayloadVerifier.VerifyRecords: the check that a relative path is safe is part of opening it, and the value of a hash is data.
- PayloadVerifier.StableLauncher: starts at the first resource; the choice of role and verify-only mode from the arguments and the joining of paths before it are left out, as are the contents of the runtime environment.
- ArenaArrays.GrowArray.Push: one item type an arena; string duplication and formatted printing on the arena are left out.
- DefinitionWalk.WalkDefs: grammar-kind tests are attributes of the abstract node; what the extractors record at a node is the visit itself; a failed `realloc`, which drops all pending frames, is left out.
- DefinitionWalk.PushNestedClassNodes: its node stack is a sequence here; `ArenaArrays` shows that the real one behaves like one.
- IdentTokens.CollectIdents: takes the identifier leaves in walk order; the walk's own 512-entry stack, which can cut a body short, is left out.
- QuarantineProtocol.ReadSuspects: reads marks, not text: a torn last line counts as lost, and lines longer than the buffer, carriage returns and a failed `realloc`, which end or change the reading, are left out.
- QuarantineProtocol.SuspectsExactly: the supervisor's rule of two consecutive runs, and the format of the quarantine file, are left out.
- CallAttribution.AttributeCalls: the arrays of marks are taken to be allocated; receivers are read by a function, not a pointer loop.
- StubWorklist.CollectAllStubs: finding stub files on disk is a given map, parsing a given function.
- Several C functions are split into methods of one loop or branch each; the outermost one carries the whole contract.
- Tree-sitter, Win32, JSON, SHA-256 and the operating system's scheduler: foreign code.
- Per-language extractors, `src/standalone_memory_server.c`, the user interface, packaging and experiment scripts: string tables, plumbing or floating point.
