# Verification of bitmagnet's core logic

A Dafny model of the logic in bitmagnet (a BitTorrent indexer, DHT crawler and content classifier) that is
hard to get right, with proofs. One module per component:

| file | component |
|---|---|
| `int160.dfy` | the 160-bit XOR metric of the DHT (the overview section of BEP 5) |
| `blocking.dfy` | the blocking manager as a protocol of many processes over one persisted filter |
| `file_search.dfy`, `file_search_cuts.dfy` | search strings from file paths |
| `lexer.dfy`, `keywords.dfy`, `keyword_errors.dfy` | the keyword language and the reader with one rune of pushback under it |
| `classifier.dfy`, `classifier_inline.dfy`, `classifier_heap.dfy`, `classifier_compile.dfy`, `classifier_print.dfy` | running, inlining, compiling and printing classifier workflows |
| `torznab_tree.dfy`, `torznab_errors.dfy`, `torznab_heap.dfy`, `torznab_text.dfy`, `torznab_normal.dfy`, `torznab_returns.dfy`, `torznab_infohashes.dfy`, `torznab_items.dfy` | the Torznab XML normal form |
| `dht_persist.dfy` | storing crawled torrents, hybrid duplicates (the upgrade path of BEP 52) and triage |
| `ngram.dfy`, `doc_stream.dfy` | the n-gram path index, the keyset stream and the grouping of its rows |
| `processor.dfy`, `tape_rerun.dfy` | processing a batch of torrents, and the write set of a replay |
| `importer.dfy` | an active import with its goroutines |
| `barrier.dfy` | the keyed barrier of the memory benchmark and the check of its log |
| `episodes.dfy` | printing seasons and episodes |
| `strings.dfy`, `options.dfy` | the order on strings, and values that may be missing |

`dafny verify dfyconfig.toml` checks everything. Each loop of the source is a method proved against a
function or a property; what the source promises is then proved of that function or state. Concurrent code
is a state machine over its critical sections, and its theorems hold for every interleaving.

Calls that cannot be decided here are parameters: Unicode tables and case mapping, the classifier's parsing,
attaching and expression steps, trimming and lower-casing of infohashes, the display form of a path, the
success of queries, transactions and flushes, clocks, and the order in which Go iterates over a map.

## Where the code does not do what one would expect

Each point names a lemma with a concrete input and the lemma that gives the exact condition.

- A path word that ends in a wide space can be lost to trimming, because the word test looks at single bytes
  (`WideSpaceLosesWord`, `CutExactly`, `CoverageExactly`). Words also need not survive unchanged
  (`ShorterWordIsDropped`, `ExactSurvival`).
- Normalizing Torznab XML twice is not normalizing once if a value holds a carriage return (`ReturnIsLost`,
  `StableExactly`): the writer leaves it raw and end-of-line handling (section 2.11 of XML 1.0) rewrites it.
  That is all that changes (`NormalizedAgain`).
- What an abandoned `find_match` alternative wrote into an allocated map stays: its tags, and the language of
  content that it attached (`AbandonedTagsCanLeak`, `AbandonedLanguageCanLeak`, `NoTraceExactly`).
- A condition at the head of a called workflow can see a result that the inlined workflow does not. That is so
  at the start of a run (`ProbeTellsSync`, `InliningNeedsSync`) and after an abandoned alternative that
  attached content (`StaleCallDiffers`, `LookupsDecide`). With an empty action in front of the inlined bodies
  nothing changes (`InlineKeepsMeaning`).
- A job whose torrents are all to be deleted ends without an error and deletes none (`DeleteAloneIsDropped`,
  `HandledExactly`): the list of hashes to delete is only used when something was classified.
- A page made only of malformed hashes ends the stream (`MalformedPageHides`, `CompleteExactly`). The comment
  at `bench-file-index/src/main.rs:1329-1332` says that a limit can truncate the last torrent; the code never
  emits an incomplete one (`GroupByTorrent`).
- A failed lookup lets a v2 hash be stored under a second key (`FailedLookupDuplicates`, `UniqueExactly`). So
  does a row stored without its v2 hash, since an existing row never gets one (`NullHashDuplicates`,
  `SecondKeyExactly`).
- A query longer than the largest gram can match words it should not (`LongQueryFalsePositive`,
  `LongQueryExactly`).
- Closing an import without draining it can leave items behind (`CloseWithoutDrainLeaves`,
  `CloseHandsOverExactly`, `CloseBeforeDone`), and cancelling the context during an import can leave it waiting for good
  (`DeadlockIsReachable`, `CanReturnExactly`).
- A barrier caller that timed out still counts as one of the parties (`TimedOutStillCounts`, `ReturnedAfterAll`).

## Model

| member | source | states |
|---|---|---|
| `Int160Model.Cmp` | internal/protocol/int160.go:60-70 | the byte loop is the comparison of the big-endian integers, and 0 exactly on equal identifiers |
| `Int160Model.Xor` | internal/protocol/int160.go:80-86 | the loop overwrites the receiver with the distance, whatever the receiver held |
| `Int160Model.IsZero` | internal/protocol/int160.go:88-96 | true exactly for the identifier whose integer is 0 |
| `Int160Model.WithMax` | internal/protocol/int160.go:72-78 | no identifier has a larger integer |
| `Int160Model.ByteBitIsShift` | internal/protocol/int160.go:52-54 | the mask test used in the model is the shift-and-mask test of the source, for every byte and position |
| `Int160Model.BitsSpellValue` | internal/protocol/int160.go:52-54 | the bits read by `GetBit` spell the integer that the bytes spell |
| `Int160Model.ValueInjective` | internal/protocol/int160.go:25-31 | two byte strings of one length with the same integer are the same |
| `Int160Model.WithBitGet` | internal/protocol/int160.go:40-54 | setting a bit changes that bit and no other |
| `Int160Model.WithBitValue` | internal/protocol/int160.go:40-50 | setting a bit moves the integer by exactly that bit's weight |
| `Int160Model.DistanceBits` | internal/protocol/int160.go:80-86 | the byte-wise exclusive or is the bit-wise one |
| `Int160Model.DistanceSymmetric` | internal/protocol/int160.go:103-105 | the distance is symmetric |
| `Int160Model.DistanceZeroIff` | internal/protocol/int160.go:103-105 | the distance is 0 exactly between equal identifiers |
| `Int160Model.Triangle` | internal/protocol/int160.go:103-105 | the triangle inequality, on integers |
| `Int160Model.ExactlyOnePointAtDistance` | internal/protocol/int160.go:103-105 | from every identifier every 160-bit distance is reached, by exactly one identifier |
| `Int160Model.DistanceBitLen` | internal/protocol/int160.go:25-31 | the bit length of a distance is 160 minus the length of the common prefix |
| `Int160Model.LongerPrefixIsCloser` | internal/protocol/int160.go:103-105 | a strictly longer common prefix with the target means a strictly smaller distance |
| `Blocking.StepKeepsInv` | internal/blocking/manager.go:100-210 | every step of every process (block, begin, delete, lock, load, stage, commit, abort, crawl) keeps the invariant and never shrinks the persisted filter |
| `Blocking.RunKeepsInv` | internal/blocking/manager.go:100-210 | every run of any number of processes keeps it: one lock holder, every cached filter inside the persisted one, every blocked hash in its process's buffer or cached filter |
| `Blocking.MutualExclusion` | internal/blocking/manager.go:92-98 | at no point of any run do two processes hold the advisory lock |
| `Blocking.CommittedIsNeverLost` | internal/blocking/manager.go:100-210 | what has committed at any point is in the persisted filter at every later point |
| `Blocking.BlockedIsRemembered` | internal/blocking/manager.go:62-77 | a hash given to `Block` stays in buffer or cached filter through every later step, failed flushes included |
| `Blocking.BlockedNeverPasses` | internal/blocking/manager.go:35-77 | so that process's `Filter` never lets it through again while it lives |
| `Blocking.CommitsSpread` | internal/blocking/manager.go:100-210 | a committed hash is in the cached filter of every process from that process's next acknowledged flush on, through all later steps, until it restarts |
| `Blocking.LockIsNeeded` | internal/blocking/manager.go:92-98 | without the lock there is a run in which a committed hash is lost |
| `Blocking.StageRun` | internal/blocking/manager.go:103-181 | the steps of a flush before its commit change nothing but the process's own phase and the lock |
| `Blocking.FlushRun` | internal/blocking/manager.go:100-210 | the steps of one uninterrupted flush add up to the transaction: filter grown, torrents deleted, buffer cleared only if the commit is acknowledged |
| `Blocking.FlushIsRun` | internal/blocking/manager.go:100-210 | a flush with any of its ten failures is a run of the protocol: an aborted prefix that changes nothing, a lost commit, or the whole transaction |
| `Blocking.Passed` | internal/blocking/manager.go:45-57 | exactly the queried hashes that are neither buffered nor positive in the cached filter |
| `Blocking.PassThrough` | internal/blocking/manager.go:45-57 | the loop of `Filter` computes `Passed`, in order |
| `Blocking.Manager.FlushTransaction` | internal/blocking/manager.go:100-210 | success or failure at each point of the transaction, with the exact buffer, cached filter, stored filter and torrents after it, which is where the run of `FlushIsRun` ends |
| `Blocking.Manager.FilterHashes` | internal/blocking/manager.go:35-60 | flushes when it has to, returns `Passed` or fails without changing buffer or cached filter, and forgets nothing |
| `Blocking.Manager.BlockHashes` | internal/blocking/manager.go:62-77 | the hashes are remembered whether or not the flush that follows succeeds |
| `Blocking.Manager.Flush` | internal/blocking/manager.go:79-88 | does nothing on an empty buffer; otherwise the buffered hashes are stored |
| `FileSearch.FileSearchStrings` | internal/model/torrents.go:218-272 | both passes with their loops compute `SearchStrings`, on every list of paths, in bounds and terminating; the lemmas of `FileSearchCuts` say what these strings are |
| `FileSearch.HeadCut` | internal/model/torrents.go:224-236 | the two inner loops of the first pass: the shared prefix and the back-off to a word boundary |
| `FileSearch.SecondPass` | internal/model/torrents.go:241-269 | the second pass strips the shared suffix of each string, trims it and drops what is empty |
| `FileSearch.LongestCommonSuffix` | internal/model/torrents.go:244-258 | the double loop finds the longest suffix shared with an earlier string, as `SuffixIsLongest` and `SuffixIsShared` have it |
| `FileSearch.ShortenedSuffix` | internal/model/torrents.go:260-263 | the back-off of the suffix to a word boundary |
| `FileSearchCuts.CutIsLatest` | internal/model/torrents.go:224-236 | a path is dropped exactly if it is a prefix of the previous one; otherwise it is cut at the last place where all before is shared and no word is split |
| `FileSearchCuts.FirstPassIs` | internal/model/torrents.go:222-239 | the first pass keeps paths in order, each cut against the path kept before it, and every other path is a prefix of the last one kept before it |
| `FileSearchCuts.SuffixIsLongest` | internal/model/torrents.go:241-265 | whatever suffix a string shares with any earlier one without splitting a word, at least that much is cut off |
| `FileSearchCuts.SuffixIsShared` | internal/model/torrents.go:241-265 | and what is cut off is such a suffix |
| `FileSearchCuts.TrimIsTight` | internal/model/torrents.go:265 | trimming removes white space from both ends and leaves none there |
| `FileSearchCuts.CollectedAre` | internal/model/torrents.go:265-268 | the search strings are the trimmed strings that are not empty, in order |
| `FileSearch.SplitWords` | internal/model/torrents.go:234-236 | a cut at a word boundary distributes the words over the two parts, none lost and none new |
| `FileSearch.PrefixPassCovers` | internal/model/torrents.go:222-239 | after the first pass every word of every path starts a word of some kept string |
| `FileSearch.PrefixPassInventsNothing` | internal/model/torrents.go:222-239 | and every word kept is a word of a path |
| `FileSearch.SuffixPassKeepsWords` | internal/model/torrents.go:241-269 | the suffix pass loses no whole word, by strong induction over the strings |
| `FileSearch.SuffixPassInventsNothing` | internal/model/torrents.go:241-269 | and makes no new ones |
| `FileSearch.StrippingCovers` | internal/model/torrents.go:218-269 | for all paths whatsoever, before white space is trimmed, every word starts a word of a stripped string |
| `FileSearch.CutExactly` | internal/model/torrents.go:265 | trimming removes or shortens a word of a string exactly if it removes a white space character of more than one byte |
| `FileSearch.CutWordEnds` | internal/model/torrents.go:265 | such a word ends in the first byte of that character |
| `FileSearch.TrimWords` | internal/model/torrents.go:265 | the words of a trimmed string, read off the string before trimming |
| `FileSearch.SearchCovers` | internal/model/torrents.go:216-272 | if trimming the stripped strings meets no white space of more than one byte, every word of every path starts a word of a search string; such white space inside a string does no harm |
| `FileSearch.CoverageExactly` | internal/model/torrents.go:216-272 | for all paths: everything is covered exactly if each word that trimming cuts from a stripped string starts a word in the untrimmed middle of some stripped string |
| `FileSearch.WideSpaceLosesWord` | internal/model/torrents.go:265-268 | a path consisting of a no-break space shows that the condition is needed: the byte C2 counts as a word and is trimmed away |
| `FileSearch.WideSpaceInside` | internal/model/torrents.go:265-268 | U+3000 between two letters meets the guard |
| `FileSearch.SearchInventsNothing` | internal/model/torrents.go:216-272 | under the same guard every word of a search string is a word of a path |
| `FileSearch.InventsNothingExactly` | internal/model/torrents.go:216-272 | for all paths: no search word is new exactly if what trimming leaves of each word that it shortens is a word of some path |
| `FileSearch.ShorterWordIsDropped` | internal/model/torrents.go:234-238 | words do not survive unchanged: `ab` then `a.` drops the word `a` |
| `FileSearch.ExactSurvival` | internal/model/torrents.go:216-272 | for all paths: all words survive unchanged exactly if each word truncated at some path or cut by trimming stands in the untrimmed middle of some stripped string |
| `FileSearch.PlainSurvival` | internal/model/torrents.go:216-272 | under the guard: exactly if each word truncated at some path stands in a part that some path keeps |
| `Lexing.Lexer.Read` | internal/lexer/lexer.go:27-40 | takes the next rune, or reports the end; only then is one pushback allowed |
| `Lexing.Lexer.Backup` | internal/lexer/lexer.go:42-48 | undoes exactly the last `Read`; calling it otherwise, where the source panics, is excluded by its precondition |
| `Lexing.Lexer.IsEOF` | internal/lexer/lexer.go:56-65 | true exactly at the end, consuming nothing |
| `Lexing.Lexer.ReadIf` | internal/lexer/lexer.go:67-79 | consumes the next rune exactly if it satisfies the test |
| `Lexing.Lexer.ReadChar` | internal/lexer/lexer.go:129-132 | consumes the next rune exactly if it is the given one |
| `Lexing.Lexer.ReadWhile` | internal/lexer/lexer.go:81-94 | consumes the longest run of runes that satisfy the test |
| `Lexing.Lexer.ReadUntil` | internal/lexer/lexer.go:96-113 | consumes up to and including the first rune that satisfies the test |
| `Keywords.LexClassToken` | internal/keywords/parser.go:186-227 | reads what the grammar function reads, with the same errors and the same remaining input |
| `Keywords.LexClassWithModifierToken` | internal/keywords/parser.go:157-180 | a class with an optional modifier, pushing back exactly one rune after a read |
| `Keywords.LexNestedGroup` | internal/keywords/parser.go:114-125 | a parenthesised group and its optional question mark |
| `Keywords.LexParenthesis` | internal/keywords/parser.go:105-125 | the parenthesis branches of the inner loop, one nesting level at most |
| `Keywords.LexAlternative` | internal/keywords/parser.go:103-147 | the tokens of one alternative up to a bar, the closing parenthesis, the end or an error |
| `Keywords.LexGroupToken` | internal/keywords/parser.go:92-155 | the labelled loops parse exactly the grammar; the recursion is bounded by the nesting flag, the loops by the remaining input |
| `Keywords.ParsedIsValid` | internal/keywords/parser.go:92-155 | whatever is accepted is well formed, no group holds a group, and at the outer level all input is consumed |
| `Keywords.KeywordRoundTrip` | internal/keywords/parser.go:92-155 | printing alternatives and parsing them, in front of any ending, appends exactly these alternatives |
| `Keywords.PrintParse` | internal/keywords/parser.go:92-227 | parsing the printed form of a well-formed keyword gives the keyword back |
| `Keywords.ParsePrintParse` | internal/keywords/parser.go:92-227 | for every accepted text, printing what was parsed is a text with the same parse |
| `KeywordErrors.ErrorsTell` | internal/keywords/parser.go:92-227 | an unexpected character rejects every longer text as well; a text that ends unexpectedly can be completed, unless a group in it was closed while empty |
| `KeywordErrors.ErrorExamples` | internal/keywords/parser.go:92-227 | the errors of an empty group, an upper-case letter, an empty alternative and a lone backslash |
| `KeywordErrors.ClassSyntax` | internal/keywords/parser.go:186-227 | what each kind of character class is written as |
| `KeywordErrors.ModifierSyntax` | internal/keywords/parser.go:157-180 | what each modifier does, and the star |
| `Classifier.Run` | internal/classifier/action.go:64-73 | every run of an action under an acyclic call graph ends; the incoming tag and language maps gain exactly what was added and attached in place and lose nothing; a result keeps the incoming tag map, and the incoming language map if that held a language; an executed delete is the outcome, and only it |
| `Classifier.RunSeq` | internal/classifier/action.go:64-73 | the same for the loop of a sequence |
| `Classifier.RunFind` | internal/classifier/action_find_match.go:46-62 | the same for the loop of `find_match` |
| `Classifier.RunNames` | internal/classifier/action_run_workflow.go:44-55 | the same for the loop of `run_workflow` |
| `Classifier.LeafRules` | internal/classifier/classification/result.go:16-63 | the outcome of every action that runs no other: the found content, the merged attributes, the new result, the tags, or exactly the error |
| `Classifier.IfElseRule` | internal/classifier/action_if_else.go:73-88 | the branch that the condition chooses, nothing if it is missing, the error of the condition |
| `Classifier.SeqRule` | internal/classifier/action.go:64-73 | a sequence is its first action and then the rest on the result, unless the first fails |
| `Classifier.CallRule` | internal/classifier/action_run_workflow.go:44-55 | a call is the first workflow with a rebuilt view and then the other names on its result |
| `Classifier.FindRule` | internal/classifier/action_find_match.go:46-62 | the first alternative decides unless it is unmatched |
| `Classifier.UnmatchedIsCaught` | internal/classifier/action_find_match.go:46-62 | `unmatched` never leaves a `find_match` |
| `Classifier.AbandonedAlternative` | internal/classifier/action_find_match.go:46-62 | after an abandoned alternative the others run in the same context, except that exactly its added tags and its attached languages stay in those of the two maps that were allocated |
| `Classifier.NoTraceExactly` | internal/classifier/action_find_match.go:46-62 | an abandoned alternative can be dropped, whatever the others are, exactly if each map was nil or already held what it wrote |
| `Classifier.AbandonedTagsCanLeak` | internal/classifier/action_add_tag.go:46-57 | a concrete program in which a tag of an abandoned alternative ends up in the result |
| `Classifier.AbandonedLanguageCanLeak` | internal/classifier/classification/result.go:16-29 | a concrete program, with no tags at all, in which the language of content that was attached and abandoned ends up in the result |
| `ClassifierInline.InlinedCallsNothing` | internal/classifier/action_run_workflow.go:44-55 | after inlining no workflow is called |
| `ClassifierInline.InlineKeepsMeaning` | internal/classifier/action_run_workflow.go:44-55 | inlining the bodies behind an empty action gives the same result or error, maps and deletions in every context; inlining them as they stand does so if every workflow is entered with a current protobuf view |
| `ClassifierInline.LearnsNothing` | internal/classifier/classification/result.go:16-29 | only attached content with a language is ever written into a language map in place |
| `ClassifierInline.StaysInSync` | internal/classifier/classifier.go:53-58 | from a current view every workflow is entered with a current view, if no alternative that attaches is followed by one that calls at once, or if no lookup returns a language |
| `ClassifierInline.ProbeTellsSync` | internal/classifier/classifier.go:53-58 | for every context whose view is not current there is a program that plain inlining changes |
| `ClassifierInline.InliningNeedsSync` | internal/classifier/classifier.go:53-58 | plain inlining is safe in a context for every such program exactly if its view is current |
| `ClassifierInline.StaleCallDiffers` | internal/classifier/action_find_match.go:46-62 | a concrete program and a context with a current view: the called workflow sees the language that an abandoned attach left, the inlined one does not |
| `ClassifierInline.LookupsDecide` | internal/classifier/classification/result.go:16-29 | plain inlining is safe from every current view, for all programs and conditions, exactly if no lookup returns content with an original language |
| `ClassifierHeap.ExecAddTag` | internal/classifier/action_add_tag.go:46-57 | on the heap: the shared map is written in place, a nil one is allocated |
| `ClassifierHeap.ExecAttachContent` | internal/classifier/classification/result.go:16-29 | on the heap: the found content is in the result; a language goes into the shared map in place if that is empty or the torrent has several, and into a new one if it is nil |
| `ClassifierHeap.ExecMerge` | internal/classifier/classification/result.go:46-63 | on the heap: the parsed attributes are in the result; an empty language map is replaced by the parsed one, any other kept; no map is written |
| `ClassifierHeap.Exec` | internal/classifier/action_if_else.go:73-88 | running an action with both maps shared by reference gives the result, the final contents of the maps, and the sharing that the value semantics says; for the simple actions, a failing condition and a missing branch the outcome is stated outright |
| `ClassifierHeap.ExecSeq` | internal/classifier/action.go:64-73 | the same for the loop that threads the context |
| `ClassifierHeap.ExecFind` | internal/classifier/action_find_match.go:46-62 | the same for the early-return loop over alternatives that share both maps |
| `ClassifierHeap.ExecNames` | internal/classifier/action_run_workflow.go:44-55 | the same for the loop that reassigns result and error |
| `ClassifierCompile.CompileAction` | internal/classifier/action.go:26-74 | the labelled loops over raw actions and definitions compute the compilation function: success, soft failure or fatal failure |
| `ClassifierCompile.OnlyOneDecides` | internal/classifier/payload.go:117-253 | at a node at most one definition succeeds or fails fatally, so trying them in order finds it |
| `ClassifierCompile.OrderDoesNotMatter` | internal/classifier/action.go:41-62 | every permutation of the definitions gives the same outcome and the same compiled action, for every source |
| `ClassifierCompile.DefaultsHaveDistinctNames` | internal/classifier/features.go:33-47 | the registered definitions satisfy what this needs |
| `ClassifierCompile.CompiledCallsAreKnown` | internal/classifier/action_run_workflow.go:38-42 | a compiled action calls registered workflows only |
| `ClassifierPrint.PrintCompiles` | internal/classifier/action.go:26-74 | compiling the printed form of an action, with the Go or the snake case names of its fields, gives the action back |
| `ClassifierPrint.CompiledIsPrintable` | internal/classifier/action.go:26-74 | whatever is compiled has a printed form |
| `ClassifierPrint.CompilePrintCompile` | internal/classifier/action.go:26-74 | for every accepted source, printing what was compiled is a source with the same compilation |
| `ClassifierPrint.NodesDecide` | internal/classifier/action.go:37-62 | a source fails fatally exactly if one of its nodes does, wherever it stands, otherwise softly exactly if one of them does, and otherwise is the sequence of its nodes |
| `ClassifierPrint.UnknownIsSoft` | internal/classifier/action.go:41-58 | a node that names no definition is rejected softly |
| `ClassifierPrint.BadPayloadIsFatal` | internal/classifier/action_run_workflow.go:30-42 | a known key with a payload that its definition does not accept is rejected fatally |
| `TorznabTree.HasDistinctAttrs` | internal/parity/torznab_xml.go:149-157 | the loop with the set of seen names decides whether attribute names are distinct |
| `TorznabTree.ParseTorznabXML` | internal/parity/torznab_xml.go:123-212 | the token loop with its stack computes `Parse`, with every error |
| `TorznabTree.NormalDecides` | internal/parity/torznab_xml.go:181-198 | a token stream and its normal form (noise dropped, adjacent text joined) run to the same state or the same error |
| `TorznabTree.OnlyNormalMatters` | internal/parity/torznab_xml.go:181-198 | white space text, comments, declarations and the way text is split never change what is parsed |
| `TorznabTree.ParseExactly` | internal/parity/torznab_xml.go:123-212 | parsing succeeds with a tree exactly if the tree is well formed and its events are the tokens that matter |
| `TorznabErrors.ErrorsExactly` | internal/parity/torznab_xml.go:144-211 | the parser reports exactly the error of the first token that is one, and at the end an unclosed element or a missing root, all read off the tokens |
| `TorznabHeap.Parser.OpenChild` | internal/parity/torznab_xml.go:144-169 | on the heap: a node becomes its parent's last child when it opens, and all nodes stay right |
| `TorznabHeap.Parser.AddChars` | internal/parity/torznab_xml.go:181-195 | on the heap: text is joined in place to text before it |
| `TorznabHeap.Parser.Close` | internal/parity/torznab_xml.go:170-180 | on the heap: the closed node is the root of the tree the model says |
| `TorznabHeap.ParseTorznabXML` | internal/parity/torznab_xml.go:123-212 | the version on the heap gives the errors of `Parse`, or a root whose nodes, level by level, are its tree |
| `TorznabText.SortedIsUnique` | internal/parity/torznab_xml.go:221-223 | attributes with distinct names have one sorted order, so any sort gives it |
| `Strings.LessExactly` | internal/parity/torznab_xml.go:221-223 | the order: a proper prefix first, otherwise the smaller character at the first difference |
| `TorznabText.SortAttrsSorts` | internal/parity/torznab_xml.go:221-223 | sorting distinct names gives them in strictly increasing order |
| `TorznabText.LexElement` | internal/parity/torznab_xml.go:214-273 | the raw tokenizer reads the canonical text of an element, in front of anything, as its tokens and line breaks |
| `TorznabText.WrittenIsEvents` | internal/parity/torznab_xml.go:214-273 | without the line breaks these are the events of the tree with sorted attributes |
| `TorznabNormal.Buffer.WriteEscaped` | internal/parity/torznab_xml.go:291-310 | the escaping loop appends the escaped value |
| `TorznabNormal.Buffer.WriteElement` | internal/parity/torznab_xml.go:214-273 | the recursive writer fails exactly on mixed content and otherwise appends the canonical text |
| `TorznabNormal.WriteIsLayout` | internal/parity/torznab_xml.go:18-20 | the canonical text is one element per line, two spaces per level, each line ended by a line feed |
| `TorznabNormal.EscapeTable` | internal/parity/torznab_xml.go:291-310 | the characters that are escaped and how; every other one stands for itself |
| `TorznabNormal.EscapedHasNoMarkup` | internal/parity/torznab_xml.go:291-310 | a written value holds no angle bracket, and in an attribute no quote |
| `TorznabNormal.NormalizeTorznabXML` | internal/parity/torznab_xml.go:37-49 | parse, then write: `Normalize`, with its errors |
| `TorznabNormal.SortTreeForgets` | internal/parity/torznab_xml.go:221-223 | two trees have the same sorted tree exactly if they differ in the order of attributes only |
| `TorznabNormal.SortTreeKeeps` | internal/parity/torznab_xml.go:214-273 | the sorted tree is well formed, sorted, has the same canonical text and the same mixed-content verdict |
| `TorznabNormal.ReadBack` | internal/parity/torznab_xml.go:37-49 | reading and parsing the canonical text gives the tree with sorted attributes |
| `TorznabNormal.WriteReturns` | internal/parity/torznab_xml.go:291-310 | the canonical text has a carriage return exactly if a text or attribute value has one |
| `TorznabNormal.StableExactly` | internal/parity/torznab_xml.go:37-49 | normalizing twice equals normalizing once exactly if no kept text and no attribute value holds a carriage return |
| `TorznabNormal.ReturnIsLost` | internal/parity/torznab_xml.go:37-49 | a concrete document for which it does not |
| `TorznabReturns.LexEol` | internal/parity/torznab_xml.go:123-142 | translating line ends before decoding makes no difference, as section 2.11 of XML 1.0 has it |
| `TorznabReturns.WriteEol` | internal/parity/torznab_xml.go:291-310 | the writer leaves line ends alone: translating its text is writing the translated tree |
| `TorznabReturns.ReadBackAny` | internal/parity/torznab_xml.go:37-49 | for every tree: reading its canonical text gives the sorted tree with line ends translated |
| `TorznabReturns.NormalizedAgain` | internal/parity/torznab_xml.go:37-49 | for every document: a second normalization only translates line ends, and a third changes nothing |
| `TorznabNormal.NormalFormForgetsOrder` | internal/parity/torznab_xml.go:23-27 | documents that differ in attribute order only have the same normal form; conversely, without carriage returns, the same normal form means the same tree up to that order |
| `TorznabNormal.SameButOrderMixed` | internal/parity/torznab_xml.go:241-252 | and the same mixed-content verdict |
| `TorznabNormal.EmptyElementForms` | internal/parity/torznab_xml.go:33-34 | `<a/>` and `<a></a>` read the same |
| `TorznabInfohashes.TorznabXMLAttributeValue` | internal/parity/torznab_xml.go:312-320 | the first attribute of that name, or none if there is none |
| `TorznabInfohashes.ItemInfohash` | internal/parity/torznab_xml.go:63-91 | the loop over the children of an item computes its hash, which the lemmas of `TorznabItems` give by positions |
| `TorznabItems.AttributeDecides` | internal/parity/torznab_xml.go:63-89 | the first child that is a `torznab:attr` with name `infohash` and a value gives the hash, wherever a guid stands |
| `TorznabItems.GuidDecides` | internal/parity/torznab_xml.go:80-89 | without one, the first guid with text gives it |
| `TorznabItems.NothingDecides` | internal/parity/torznab_xml.go:63-89 | without either it is empty |
| `TorznabItems.AttrValueExactly` | internal/parity/torznab_xml.go:312-320 | an attribute value is that of the first attribute of the name |
| `TorznabInfohashes.Collector.Visit` | internal/parity/torznab_xml.go:60-100 | the recursive visit appends the hashes of the tree in document order |
| `TorznabInfohashes.ExtractInfohashes` | internal/parity/torznab_xml.go:53-105 | the parser's errors, or the hashes of the parsed tree |
| `TorznabItems.HashesStand` | internal/parity/torznab_xml.go:51-105 | hash by hash, in document order, each is that of an item outside all other items |
| `TorznabItems.LocalNameIs` | internal/parity/torznab_xml.go:283-289 | a local name is what follows the last colon |
| `TorznabInfohashes.SameInfohashes` | internal/parity/torznab_xml.go:53-105 | trees that differ in attribute order only have the same hashes |
| `TorznabInfohashes.NormalFormKeepsInfohashes` | internal/parity/torznab_xml.go:53-105 | for every document: extraction gives the same list before and after normalizing exactly if translating the line ends inside the hashes makes no difference once they are trimmed and lower-cased |
| `TorznabInfohashes.OnePerItem` | internal/parity/torznab_xml.go:51-53 | as many hashes as the tokens of the document open items outside other items |
| `DhtPersist.CreateTorrentModel` | internal/dhtcrawler/persist.go:211-308 | the stored file list is the first min(threshold, n) files with index equal to position; status and count say whether it was cut |
| `DhtPersist.CrawledAgainExactly` | internal/dhtcrawler/infohash_triage.go:83-92 | a stored torrent goes back to `getPeers` under a threshold exactly if its list was cut and fits now; never under the same threshold |
| `DhtPersist.CrawledAgainOnce` | internal/dhtcrawler/infohash_triage.go:83-92 | crawled again, it is stored whole and left alone from then on |
| `DhtPersist.TriageBatch` | internal/dhtcrawler/infohash_triage.go:83-104 | the routing loop sends each hash where the decision says: unknown ones to `getPeers`, of the others those not scraped recently to `scrape`, and none to both |
| `DhtPersist.RoutesExactly` | internal/dhtcrawler/infohash_triage.go:85-101 | a hash without a row is looked up; a row that is left alone is scraped exactly if it was not scraped recently |
| `DhtPersist.FilterV2Duplicates` | internal/dhtcrawler/persist.go:362-384 | the loop with its batch map keeps a subsequence of the items and counts the others |
| `DhtPersist.DroppedExactly` | internal/dhtcrawler/persist.go:337-384 | an item is dropped exactly if it has the v2 hash of a stored torrent, or of an item kept before it, under another key |
| `DhtPersist.LookupExistingV2` | internal/dhtcrawler/persist.go:389-434 | every answer is a stored row; if all chunk queries succeed, every stored v2 hash of the batch is answered |
| `DhtPersist.PersistFirst` | internal/dhtcrawler/persist.go:134-146 | of the items with one key the first decides the row, and an existing row keeps its v2 hash |
| `DhtPersist.UniqueExactly` | internal/dhtcrawler/persist.go:65-146 | after a batch each v2 hash is under one key exactly if the lookup missed no hash that the batch newly stores |
| `DhtPersist.BatchesKeepUnique` | internal/dhtcrawler/persist.go:65-146 | over every sequence of batches whose lookups succeed, a v2 hash is stored under at most one key |
| `DhtPersist.StoredStays` | internal/dhtcrawler/persist.go:134-146 | first one wins: a stored key keeps its v2 hash through all later batches |
| `DhtPersist.NothingLost` | internal/dhtcrawler/persist.go:337-384 | every item of a committed batch has its key stored, or another stored key has its v2 hash or came with it earlier in the batch; in the last case that row may hold no v2 hash, because an existing row never gets one |
| `DhtPersist.HybridsHaveOneRow` | internal/dhtcrawler/persist.go:66-77 | over every sequence of batches whose lookups succeed a hybrid torrent has a single row, if the rows stored before carried their v2 hashes |
| `DhtPersist.SecondKeyExactly` | internal/dhtcrawler/persist.go:66-77 | a hybrid discovered under a new key gets a second row, although the lookup succeeds, exactly if no stored row carries its v2 hash |
| `DhtPersist.NullHashDuplicates` | internal/dhtcrawler/persist.go:134-146 | a concrete row without a v2 hash: crawled again it stays without, and the other key is stored as well |
| `DhtPersist.FailedLookupDuplicates` | internal/dhtcrawler/persist.go:386-388 | when the lookup fails, one batch can put a v2 hash under a second key |
| `DhtPersist.Crawler.PersistTorrents` | internal/dhtcrawler/persist.go:65-185 | the worker's loop body: lookup, filter, first per key, one transaction |
| `Ngram.NewWindow` | bench-file-index/src/schema.rs:450-455 | a zero or inverted window is repaired, any other kept |
| `Ngram.WordsAreRuns` | bench-file-index/src/schema.rs:460-463 | the words are exactly the maximal alphanumeric runs of the text |
| `Ngram.Grams` | bench-file-index/src/schema.rs:458-490 | the nested loops emit exactly the grams of the words |
| `Ngram.BuildPathQuery` | bench-file-index/src/main.rs:1158-1186 | each gram of the query once |
| `Ngram.Search` | bench-file-index/src/main.rs:1148-1186 | indexing a bag of paths and evaluating the conjunction |
| `Ngram.QueryExactly` | bench-file-index/src/main.rs:1158-1186 | any query matches exactly if it has a word and the index finds each of its words, lower-cased: as a whole word if shorter than the smallest gram, by its longest grams otherwise |
| `Ngram.WindowQueryExactly` | bench-file-index/src/schema.rs:449-490 | a query with length in the window matches exactly if some ASCII word has it as a prefix or some other word contains it |
| `Ngram.ScanImpliesMatch` | bench-file-index/src/schema.rs:449-490 | a longer query matches whatever that scan finds |
| `Ngram.LongQueryExactly` | bench-file-index/src/schema.rs:449-490 | and exactly when the scan finds the longest gram from every start (the first start only, for an ASCII query) |
| `Ngram.ShortQueryExactly` | bench-file-index/src/schema.rs:468-473 | a query shorter than the smallest gram matches exactly the words equal to it |
| `Ngram.LongQueryFalsePositive` | bench-file-index/src/schema.rs:449-490 | `abc` matches `abd` when the largest gram has two characters |
| `DocStreaming.PageAt` | bench-file-index/src/main.rs:1060-1071 | a cursor on a row asks for the rows after it |
| `DocStreaming.DocStream.Refill` | bench-file-index/src/main.rs:1044-1090 | a page is read, malformed hashes skipped, and the cursor moved past them |
| `DocStreaming.DocStream.NextDoc` | bench-file-index/src/main.rs:1037-1042 | yields what remains one by one, and `None` exactly when a page brings nothing |
| `DocStreaming.CompleteExactly` | bench-file-index/src/main.rs:1037-1090 | every valid row comes once and in key order exactly if no valid row follows a page of skipped ones |
| `DocStreaming.NoGapExactly` | bench-file-index/src/main.rs:1037-1090 | that condition, read off the table at the multiples of the page size |
| `DocStreaming.MalformedPageHides` | bench-file-index/src/main.rs:1078-1080 | a page of malformed hashes hides the valid row behind it |
| `DocStreaming.GroupByTorrent` | bench-file-index/src/main.rs:1328-1368 | the grouping loop emits the first `limit` bags, each one whole |
| `DocStreaming.StreamIsGroupBy` | bench-file-index/src/main.rs:1328-1368 | run to the end it is a group-by: one bag per distinct hash, with all its paths in index order |
| `DocStreaming.IndexPerTorrent` | bench-file-index/src/main.rs:1310-1369 | stream and grouping together |
| `Processor.TorrentsWithMissingInfoHashes` | internal/database/search/search_torrents.go:49-82 | the nested loops split a request into its torrents, each once, and the missing hashes with their repetitions |
| `Processor.Accumulators.Record` | internal/processor/processor.go:156-181 | what a worker adds under the mutex |
| `Processor.Accumulators.RunWorkers` | internal/processor/processor.go:109-185 | the accumulators after all workers, for whatever order they get the mutex in |
| `Processor.OneFate` | internal/processor/processor.go:92-185 | in every order each requested hash is in exactly one of classified, to delete and failed, and no other hash in any |
| `Processor.NewRowIsKept` | internal/processor/processor.go:166-176 | the new content row is not among the rows to delete, and every other old row is |
| `Processor.Process` | internal/processor/processor.go:55-219 | the whole job, for every order of the workers: exactly which hashes are written, deleted and republished, which content rows are deleted, which tags added, and when it is an error, from the request, the torrents and the classifier |
| `Processor.EffectExactly` | internal/processor/processor.go:92-219 | written are exactly the requested torrents that were classified, deleted those to be deleted, republished the missing and failed ones; an error writes and deletes nothing |
| `Processor.Settle` | internal/processor/processor.go:187-219 | the branches after the wait: an error, nothing, or exactly the accumulated lists, each in its place |
| `Processor.AllDeletedLists` | internal/processor/processor.go:187-211 | nothing classified and nothing failed means every requested torrent exists and is to be deleted |
| `Processor.HandledExactly` | internal/processor/processor.go:187-219 | a requested hash is written, deleted, republished or retried exactly unless all requested torrents are to be deleted |
| `Processor.DeleteAloneIsDropped` | internal/processor/processor.go:209-211 | a concrete job: one torrent to be deleted, no error, nothing done |
| `TapeRerun.DedupeSortedTapeRerunStrings` | internal/processor/tape_rerun.go:358-370 | in place, reading and writing one array: the result is the list with runs of equal values made one |
| `TapeRerun.CanonIs` | internal/processor/tape_rerun.go:328-356 | a canonical list is strictly increasing with the same elements |
| `TapeRerun.CanonExactly` | internal/processor/tape_rerun.go:328-356 | two lists have the same canonical form exactly if they have the same elements |
| `TapeRerun.MaterializeTapeRerun` | internal/processor/tape_rerun.go:196-250 | fails exactly on an unsupported outcome or missing processor state; otherwise gives the write set of the replay: content, row, stale ids, hashes and tags |
| `TapeRerun.WriteSetIsUnique` | internal/processor/tape_rerun.go:196-250 | a replay has one write set |
| `TapeRerun.ReplayMatchesProcess` | internal/processor/tape_rerun.go:192-250 | for one torrent it holds what the processor accumulates |
| `Importer.StepKeepsInv` | internal/importer/importer.go:118-174 | every step of callers, receiving loop and goroutines keeps conservation, the wait group's count of unsent and unbuffered items and of goroutines past their unlock, the buffer bound, the record of failures and the open channel |
| `Importer.Conserved` | internal/importer/importer.go:118-174 | in every run accepted items are the unsent, spawned, buffered and handed-over ones, as multisets, and a send finds the channel open |
| `Importer.DrainThenClose` | internal/importer/importer.go:314-351 | after `Drain`, with no later `Import`, closing hands over every item exactly once |
| `Importer.CloseHandsOverExactly` | internal/importer/importer.go:339-351 | closing hands over everything exactly if no item is unsent or waits for its goroutine; the wait group at zero is enough |
| `Importer.CloseWithoutDrainLeaves` | internal/importer/importer.go:339-351 | a concrete run in which an item stays in the buffer of a stopped import |
| `Importer.CloseBeforeDone` | internal/importer/importer.go:143-152 | it is not needed: between the unlock and `Done` a close hands over everything with the wait group at one |
| `Importer.HangsForever` | internal/importer/importer.go:297-312 | an import whose receiver went to `Close` keeps its unsent items and its mutex in every continuation |
| `Importer.CanReturnExactly` | internal/importer/importer.go:297-312 | a running import can still return exactly if that has not happened |
| `Importer.DeadlockIsReachable` | internal/importer/importer.go:128-132 | cancelling the context during an import can bring it about |
| `Importer.ActiveImport.BufferItem` | internal/importer/importer.go:143-152 | the critical section of `buffer` is the model's step |
| `Importer.ActiveImport.LeaveWaitGroup` | internal/importer/importer.go:144 | the deferred `Done`, after the unlock, is a step of its own |
| `Importer.ActiveImport.FlushNow` | internal/importer/importer.go:154-174 | the critical section of `flush` is the model's step |
| `Importer.ActiveImport.CloseImport` | internal/importer/importer.go:339-351 | the critical section of `Close` is the model's step, and returns the recorded failures |
| `Barrier.StepKeepsInv` | bench/graphql-rss/helper.py:286-315 | every arrival, wake-up, timeout and response keeps the numbering of arrivals |
| `Barrier.ReturnedAfterAll` | bench/graphql-rss/helper.py:286-315 | in every run a call that returned did so after its generation had exactly the arrivals 1 to `parties`, each once, timed-out callers included |
| `Barrier.TimedOutStillCounts` | bench/graphql-rss/helper.py:303-311 | a caller that timed out still counts: the next one can be released alone |
| `Barrier.RunKeepsBooks` | bench/graphql-rss/helper.py:291-315 | the log agrees with the calls, and the first `parties` calls of a key are numbered in order in one generation |
| `Barrier.BarrierEvidence` | bench/graphql-rss/run.py:435-450 | the check of the log |
| `Barrier.EvidenceExactly` | bench/graphql-rss/run.py:435-450 | after a run with four calls of a key, all over, the check passes exactly if none timed out |
| `Barrier.ReusableKeyedBarrier.Enter` | bench/graphql-rss/helper.py:286-299 | the section before the loop is the model's arrival |
| `Barrier.ReusableKeyedBarrier.Check` | bench/graphql-rss/helper.py:300-311 | a turn of the loop is the wake-up or timeout that is possible then |
| `Episodes.GetContiguousRanges` | internal/model/episodes.go:128-152 | non-touching maximal ranges that hold exactly the numbers given; the zero range for an empty list |
| `Episodes.SeasonEntries` | internal/model/episodes.go:77-104 | the seasons in order, each with its episodes in order |
| `Episodes.Parts` | internal/model/episodes.go:11-41 | the printed parts cover every season exactly once, whole seasons by maximal ranges and episodes by maximal ranges; the zero range is never printed |
| `Episodes.DenotesOne` | internal/model/episodes.go:11-44 | a list of parts denotes one map |
| `Episodes.PartsAreOne` | internal/model/episodes.go:11-44 | a map has one list of parts |
| `Episodes.String` | internal/model/episodes.go:11-44 | the text is that of the one list of parts that denotes the map |
| `Episodes.PadWidth` | internal/model/episodes.go:157-165 | numbers are at least two characters wide |
| `Episodes.TextExample` | internal/model/episodes.go:111-165 | a concrete text with episodes and whole seasons, single and in ranges |
| `Episodes.ReadText` | internal/model/episodes.go:111-165 | the printed text can be read back to its parts |
| `Episodes.TextTellsHeld` | internal/model/episodes.go:11-44 | two maps print the same text exactly if they are the same map |
| `Episodes.Episodes.AddEpisode` | internal/model/episodes.go:61-70 | adds the episode; a season held whole shrinks to it |
| `Episodes.Episodes.AddSeason` | internal/model/episodes.go:72-75 | makes the season whole and leaves the others |

## Left out

- The stable Bloom filter's random eviction and its byte format: the filter is a set that may hold more than was added.
- PostgreSQL, the network and the queue: tables are maps, transactions atomic steps, and each may fail.
- Liveness: nothing is said about when a timer fires or a goroutine runs. The one exception is the importer's stuck state.
- Keywords.PrintParse: the parser yields a syntax tree where the source yields regular-expression tokens; the tokens of a class are kept, the library that prints them is not part of this model.
- Keywords.LexGroupToken: the character table (word characters and case mapping) is a parameter; the round trips ask that no character with a syntactic role is a word character.
- Classifier.Run: needs an acyclic call graph, which the source does not check; a cyclic one need not end.
- ClassifierHeap.Exec: the `Episodes` map is part of the result's value, since no action writes it in place. A language map that the torrent's hint brought in is shared with the hint; that sharing is not modelled.
- ClassifierInline.StaysInSync: the guard on programs is sufficient only, because two conditions in a program can exclude each other; `LookupsDecide` and `InliningNeedsSync` are exact.
- ClassifierCompile.OrderDoesNotMatter: for action definitions. Condition definitions are tried in order too, but the expression condition must come last, since its payload never fails softly.
- ClassifierCompile.CompileAction: payload shapes are modelled by what they accept (a literal, a single key, a list, a struct); JSON schemas, flags and the YAML source merge are not.
- TorznabText.LexElement: the tokenizer is modelled on elements, attributes, text and the predefined entities. Comments, CDATA, declarations and numeric references reach the model as tokens, not as characters; name tables, prefixes with several colons, the ban on `]]>` in text and on control characters are not modelled. The canonical text uses none of these.
- TorznabNormal.NormalFormForgetsOrder: the converse is stated for documents without carriage returns.
- TorznabNormal.NormalizeTorznabXML: works on tree values; `torznab_heap.dfy` shows that the nodes the parser links on the heap are these values.
- DhtPersist.CrawledAgainExactly: the threshold is a natural number; the conversion of an unsigned threshold above the signed range is not modelled.
- DhtPersist.Crawler.PersistTorrents: the tables of files, summaries, sources and pieces, which are written without a decision, and the list of hashes to classify.
- Ngram.Search: ranking and the other tokenizers of the benchmark.
- DocStreaming.DocStream.NextDoc: the synthetic source, sizes, and commit intervals.
- Processor.Process: reuse of stored hints and the projection of a result into content rows (`newTorrentContent`); the id inferred for a row is part of the classifier's answer.
- TapeRerun.MaterializeTapeRerun: the fields of the written rows other than hash and id, which are copied.
- Importer.Conserved: what `persistItems` does with the items.
- Barrier.EvidenceExactly: for runs that start with nobody waiting.
- Episodes.String: the parser of such texts, whose capture groups belong to a library.
- Health checks, lazy values, semaphores, source merging, configuration, web and GraphQL layers: easy beside the above.
