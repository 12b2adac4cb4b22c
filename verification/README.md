# Verified models of Firebase tooling and of the ML model downloader

This project models four parts of the repository in Dafny and proves what they are for.

**cpplint's bracket and nesting engine** (`scripts/cpplint.py`). The forward and the backward
multi-line scanner carry a stack of brackets through heuristics for `<`, `>`, `<<`, `->`, `operator<`
and `;`. A grammar of well-nested text (`WellNested`) is the independent reference: from `(`, `[` or
`{` both scanners report exactly the pairs of the grammar, so they undo each other as long as the
backward one does not start at a `>` that it ignores, and `_GetTextInside` agrees with them. From an
angle bracket they report exactly where a count of angle brackets over the text outside inner brackets
first comes to zero (`TemplateLists`). `InTemplateArgumentList` hops with the forward scanner and ends on
every file. `NestingState` keeps block objects that are changed in place and checkpoints of them at
`#if`, `#else` and `#endif`; the objects are proved never to be shared, and the stack at the end of a
file is proved to be that of the file with its `#else` tails erased. What a line does to the stack is
proved by counting its braces (`NestingBraces`). The comment eraser works in place on an array and the
include-order check is an automaton with a declarative meaning.

**The ML model download protocol** (`FirebaseMLModelDownloader/Sources`). `DownloadProtocol` is a
state machine of requests, model info replies, blocks on the serial queue, mergeable tasks, file
callbacks and a shared retry budget. Over every interleaving each request is in exactly one place; runs
end and then everything has been delivered once; downloads are bounded; merged handlers are a
first-in first-out list; what a request is told is what the events of the run cause; every downloading task is in the dictionary until a removal drops a live one,
and one reachable run shows that it can. `ModelDownloader` does the same to task objects. The on-device
store (a file and a defaults entry) is honest in every reachable state if and only if its two key
encodings agree, and is then a plain map that each event changes in one place. A conditional request for
the latest model gives what an unconditional download would give, and the replies that make it succeed,
fail or retry are known exactly.

**The local dependency search** (`scripts/pod_lib_lint.rb`): a depth-first search over a graph with
cycles whose one mutable set is both the visited set and the ignore list.

**The project syncer** (`scripts/sync_project.rb`): the walk over groups and directories finds exactly
the files below them, a run raises exactly when a file to add lies in no root group, the exact condition
under which one run reaches a fixed point is proved, its count is the number of differences that it
made in what it manages, and each file goes to the phase of its extension.

Each module that holds a class (`NestingState`, `ModelDownloader`, `DeviceStore`, `ProjectSync`) proves
its methods against functions on values, and the laws are proved about those functions.

Where the code and its comments differ, the model follows the code:

- `taskCompletion` returns early when the retries are used up, so in that case no removal is queued
  and the finished task stays in the dictionary
  (`FirebaseMLModelDownloader/Sources/ModelDownloader.swift:461-489`).
- A file download counts as successful for statuses 200 to 298
  (`FirebaseMLModelDownloader/Sources/ModelDownloadTask.swift:191`).
- The comment in `Update` says that the block stack is never modified in place, but the top block is
  (`scripts/cpplint.py:3086-3119`).

## Model

| member | source | states |
|---|---|---|
| ScannerLaws.ScannersAreInverse | scripts/cpplint.py:1998-2232 | for every file and every `(`, `[`, `{`: `CloseExpression` reports a place iff `ReverseCloseExpression` from the character before that place reports the opening bracket and that character is not a `>` that the backward scanner ignores (of `->`, ` >= ` or `operator>`), because from such a `>` it goes on with an empty stack |
| ScannerLaws.ArrowIsIgnored | scripts/cpplint.py:2143-2153 | the condition is needed: on `(a)->` the backward scanner leads from the `>` to the bracket, which the forward scanner closes two characters earlier |
| ScannerLaws.BracketsAreInverse | scripts/cpplint.py:1998-2232 | the equivalence in the form that the character before the place is a closing bracket |
| ForwardScan.CloseIffEnclosed | scripts/cpplint.py:1998-2117 | from `(`, `[`, `{` a place is reported iff the text up to it is one bracket pair of the grammar, whatever angle brackets, shifts, arrows, operators and semicolons are inside |
| BackwardScan.OpenIffEnclosed | scripts/cpplint.py:2120-2232 | the same for the backward scanner from `)`, `]`, `}` |
| ForwardLists.CloseIffPair | scripts/cpplint.py:1998-2117 | for every file and every start a place is reported iff the scan starts at a bracket or at a `<` not followed by `<` or `=`, and what the first opening character from there on opens, a bracket pair of the grammar or a template argument list, ends at that place; a closing bracket or semicolon before any opening character means no place |
| ForwardLists.ScanIffList | scripts/cpplint.py:2011-2073 | from a `<` that opens a list: outside inner brackets count +1 for a `<` that opens and -1 for a `>` that closes or for the second of `<<`; a place is reported iff the count is positive at every earlier place and first zero there, at a `>` that closes, with the brackets between well nested and no semicolon outside them |
| ForwardLists.NestedLists | scripts/cpplint.py:2048-2061 | on `a<b<c> >` from column 1 the place is 8: each `>` closes one list |
| BackwardLists.OpenIffPair | scripts/cpplint.py:2120-2232 | the same for the backward scanner, which starts at a closing bracket or at any `>`, and from a `>` that it ignores goes on to the first opening character to the left |
| BackwardLists.ScanIffList | scripts/cpplint.py:2136-2194 | from a `>` that is not ignored: the same count to the left, +1 for such a `>` and -1 for the leftmost of an odd number of `<` in a row |
| AngleCounts.ApplyCounts | scripts/cpplint.py:2011-2194 | above an angle bracket one step of either scanner moves the count of open lists and the plain stack of brackets as the text says, and fails or ends exactly when they do |
| TemplateLists.RestFirst | scripts/cpplint.py:2011-2194 | the counting definition of a list, with its quantified conditions on all prefixes, decided by the first character and the rest |
| TemplateLists.OutsideIff | scripts/cpplint.py:2030-2047 | a character is outside inner brackets iff the text before it is well nested |
| TemplateLists.ListIsWellNested | scripts/cpplint.py:2011-2194 | a template argument list is well-nested text |
| SourceText.OperatorMeans | scripts/cpplint.py:2024-2053 | the search for `operator` before an angle bracket finds exactly that word followed by white space alone |
| ForwardScan.FindEndOfExpressionInLine | scripts/cpplint.py:1998-2073 | the loop with its in-line stack computes the scan of the line: the end, a failure, or the stack that is left; where that scan ends is said by `ForwardLists.CloseIffPair` of the text alone |
| ForwardScan.CloseExpression | scripts/cpplint.py:2076-2117 | the loop over lines finds what the scan over the whole rest of the file finds, which by `ForwardLists.CloseIffPair` is a bracket pair or a template argument list; without a match it returns the line on which that scan ended, the line count and -1 |
| BackwardScan.FindStartOfExpressionInLine | scripts/cpplint.py:2120-2194 | the backward loop computes the backward scan of the line, skips included; where that scan ends is said by `BackwardLists.OpenIffPair` of the text alone |
| BackwardScan.ReverseCloseExpression | scripts/cpplint.py:2197-2232 | the loop over lines finds what the backward scan to the start of the file finds, which by `BackwardLists.OpenIffPair` is a bracket pair or a template argument list; without a match it returns the line on which that scan ended, 0 and -1 |
| ForwardScan.CloseAt | scripts/cpplint.py:2076-2117 | any match lies strictly after the position it starts from and inside the file |
| ForwardScan.ScanIffCloses | scripts/cpplint.py:2011-2073 | above an open bracket the scan with its heuristics stops exactly where the plain stack empties |
| AngleStack.ApplyProjects | scripts/cpplint.py:2011-2194 | whatever either scanner's angle-bracket heuristics do to its stack, the brackets on it move as on a plain stack, and a failure above a bracket is a failure of the plain stack |
| BackwardScan.ScanIffReads | scripts/cpplint.py:2136-2194 | above a closing bracket the backward scan stops exactly where the plain stack empties on the mirrored text |
| ForwardScan.MatchIsWellNested | scripts/cpplint.py:2016-2117 | every match that is reported, from `<` too, encloses text whose brackets are well nested |
| BackwardScan.MatchIsWellNested | scripts/cpplint.py:2136-2232 | every match of the backward scanner, from `>` too, encloses text whose brackets are well nested, in spite of the characters it skips |
| ForwardScan.TemplateMatch | scripts/cpplint.py:2016-2117 | the match of a `<` that is neither part of `<<` nor of `operator<` ends at a `>`, and each semicolon before it is inside a bracket; which `>` that is, is said by `ForwardLists.ScanIffList` |
| ForwardScan.ScanLineIsPlain | scripts/cpplint.py:2011-2073 | on one text the scanner above a bracket is the plain matcher |
| ForwardScan.GetTextInside | scripts/cpplint.py:5174-5227 | returns the text inside iff `FindEndOfExpressionInLine` finds the end from the same bracket, and nothing otherwise |
| ForwardScan.GetTextAgrees | scripts/cpplint.py:5198-5227 | the plain matcher and `FindEndOfExpressionInLine` agree on every text, and a match encloses a pair of the grammar |
| TemplateArguments.InTemplateArgumentList | scripts/cpplint.py:2965-3015 | ends on every file and answers yes iff hops over matched `<...>` and undecided lines lead to a deciding character |
| TemplateArguments.HopReaches | scripts/cpplint.py:2975-3014 | one hop does not change the answer |
| NestingState.NestingState.Process | scripts/cpplint.py:6404-6440 | after all lines the block objects hold what the lines outside `#else` tails do on their own, if no `#else` is still open |
| NestingState.NestingState.Update | scripts/cpplint.py:3074-3236 | the live stack and all checkpoints share no block object afterwards, and together they hold what the same line makes of values; on a line without a directive the height changes by its braces, balanced braces and a class head that is dropped leave the blocks that were there, and a class head with its brace adds that class |
| NestingState.NestingState.UpdatePreprocessor | scripts/cpplint.py:3017-3071 | saving, restoring and dropping checkpoints keeps all block objects apart although `#endif` restores without a copy |
| NestingState.NestingState.LeaveConditional | scripts/cpplint.py:3052-3068 | the checkpoint's own blocks become the live stack and stay apart from all that remains |
| NestingState.NestingState.EnterElse | scripts/cpplint.py:3038-3051 | the first `#else` keeps the stack for `#endif`, and each `#else` goes back to a copy of the stack before `#if` |
| NestingState.NestingState.CountTop | scripts/cpplint.py:3098-3119 | counting parentheses and inline assembly change the top block in place and no checkpoint |
| NestingState.NestingState.PushNamespaces | scripts/cpplint.py:3121-3140 | the namespace loop pushes one new block per declaration and changes no checkpoint |
| NestingState.NestingState.PushClass | scripts/cpplint.py:3142-3166 | a class is pushed iff it is declared outside parentheses and template arguments |
| NestingState.NestingState.ReadHead | scripts/cpplint.py:3168-3182 | base class and access are recorded on the top class only and change no checkpoint |
| NestingState.NestingState.ReadTokens | scripts/cpplint.py:3199-3236 | the loop over braces, semicolons and parentheses does to the objects what it does to values: balanced braces leave the stack as it was, and otherwise its height changes by opening minus closing braces, as far as the stack goes |
| NestingBraces.BraceLaw | scripts/cpplint.py:3199-3236 | reading tokens pops one block for each unmatched `}`, as far as the stack goes, and then pushes one for each unmatched `{`, in order and of the kind that its brace says, when the blocks it uncovers have seen their braces |
| NestingBraces.UnmatchedIsExcess | scripts/cpplint.py:3199-3236 | the unmatched `}` are the largest excess of closing over opening braces of any prefix |
| NestingBraces.BalancedLeaves | scripts/cpplint.py:3199-3236 | tokens with balanced braces leave a stack whose top has seen its brace |
| NestingBraces.HeadLaw | scripts/cpplint.py:3205-3230 | the first token decides about a head that waits for its brace: `{` completes it, and `;`, `)` or `}` drops it |
| NestingBraces.PlainLine | scripts/cpplint.py:3074-3236 | a line without directive, namespace and class does to the stack what its braces do, after its parentheses are counted in the top block, and changes no checkpoint |
| NestingBraces.PlainLines | scripts/cpplint.py:3074-3236 | over any number of such lines the height of a stack of complete blocks changes by the opening minus the closing braces of all of them, as far as the stack goes |
| NestingBraces.ForwardDeclaration | scripts/cpplint.py:3214-3230 | a class head followed by `;` or `)` before its `{` leaves the stack as it was but for the rest of the line |
| NestingBraces.ClassDefinition | scripts/cpplint.py:3142-3182 | a class head with its brace adds one class with its name, access and base class mark, and the rest of the line acts inside it |
| NestingBraces.ClassIgnored | scripts/cpplint.py:3146-3166 | a class head within open parentheses or template arguments has no effect |
| NestingBraces.NamespacesLaw | scripts/cpplint.py:3121-3140 | one block for each namespace of the line, in order, that has seen its brace iff that is on the line |
| NestingBraces.HeadsNote | scripts/cpplint.py:3168-3182 | access and base class mark change on the top class only, the mark only before its brace |
| NestingBraces.AsmIff | scripts/cpplint.py:3098-3119 | over any lines a block is in inline assembly iff some line started it by changing the parentheses to one open one and they have not closed since; the line that closes them ends it |
| NestingBraces.QuietLines | scripts/cpplint.py:3098-3119 | lines on which nothing but parentheses is found change only the counts of the block on top |
| NestingState.DeepCopy | scripts/cpplint.py:3041-3051 | equal values in new and distinct objects |
| NestingValues.RunCommits | scripts/cpplint.py:3017-3236 | for every file, properly nested or not: the stack that `#endif` will commit to is what the lines outside `#else` tails do on their own |
| NestingValues.StepCommits | scripts/cpplint.py:3074-3236 | one line adds its own effect to the committed stack iff it is outside every `#else` tail |
| NestingValues.StackIgnoresElseTails | scripts/cpplint.py:3024-3033 | if no `#else` is open at the end, the stack is that of the file with its `#else` tails erased |
| NestingValues.EraseTwice | scripts/cpplint.py:3024-3033 | the erased file has no `#else` tail left, so erasing again changes nothing |
| NestingValues.EraseKeepsFirstBranches | scripts/cpplint.py:3024-3033 | on properly nested conditionals erasing keeps exactly the first branch of each, at any depth |
| NestingValues.NestedFileStack | scripts/cpplint.py:3017-3071 | a properly nested file leaves the stack of its first branches |
| MultiLineComments.RemoveMultiLineComments | scripts/cpplint.py:1871-1884 | the array is left as a line-by-line reading says, and an error names the first comment start that has no end at or after it; no error iff there is none |
| MultiLineComments.BlankedIff | scripts/cpplint.py:1871-1884 | a line becomes `/**/` iff a comment starts on it or on an earlier line with no end between, and some line from it on ends a comment; every other line is kept |
| MultiLineComments.UnfinishedIff | scripts/cpplint.py:1874-1884 | the error of a line is that a comment starts on it and no line from it on ends one |
| MultiLineComments.FindNextMultiLineCommentStart | scripts/cpplint.py:1843-1851 | the first line from the given one on that starts a comment going beyond it, or the line count |
| MultiLineComments.FindNextMultiLineCommentEnd | scripts/cpplint.py:1854-1860 | the first line from the given one on that ends a comment, or the line count |
| MultiLineComments.MarkMeaning | scripts/cpplint.py:1843-1860 | on the unstripped line: a start is `/*` after white space alone with no `*/` behind it, and an end is `*/` with white space alone behind it |
| MultiLineComments.RemoveMultiLineCommentsFromRange | scripts/cpplint.py:1863-1868 | blanks exactly the lines of the range |
| MultiLineComments.Cleaned | scripts/cpplint.py:1871-1884 | as many lines as before, each unchanged or `/**/` |
| MultiLineComments.CleanedTwice | scripts/cpplint.py:1871-1884 | a second run changes nothing and reports the same |
| MultiLineComments.NoStartLeft | scripts/cpplint.py:1871-1884 | without an error no comment start is left |
| IncludeOrder.IncludeState.CheckNextIncludeOrder | scripts/cpplint.py:1187-1244 | an include is flagged iff it is a system header and some earlier one is a system header of a later kind (C before C++ before other), an other header, or an own-header candidate after the leading run of those; the section never goes back |
| IncludeOrder.IncludeState.ResetSection | scripts/cpplint.py:1130-1146 | forgets all earlier includes for the order check; a new conditional gets a list of its own, a new branch empties the last list, and no list is dropped |
| IncludeOrder.IncludeState.FindHeader | scripts/cpplint.py:1115-1128 | the line of the first include of the header, and -1 iff no list has it |
| IncludeOrder.NextReached | scripts/cpplint.py:1205-1244 | the section after one more include is again exactly what all includes since the reset determine |
| DownloadLaws.RunKeepsInv | FirebaseMLModelDownloader/Sources/ModelDownloader.swift:426-540 | over every interleaving each issued request is in exactly one place: awaiting info, queued, in one unfinished task, or delivered |
| DownloadLaws.StepKeepsInv | FirebaseMLModelDownloader/Sources/ModelDownloader.swift:426-540 | every single step keeps that, through merges and retries |
| DownloadProtocol.StepPlaces | FirebaseMLModelDownloader/Sources/ModelDownloader.swift:426-540 | a step changes the number of places of a request only by issuing it |
| DownloadLaws.DeliveredAtMostOnce | FirebaseMLModelDownloader/Sources/ModelDownloader.swift:446-490 | in every run a completion is delivered at most once, and one that is not yet delivered is in exactly one other place |
| DownloadLaws.SlotKept | FirebaseMLModelDownloader/Sources/FileDownloader.swift:72-107 | the completion slot of a file downloader is not overwritten while its download is under way, and a download starts only on an idle downloader |
| DownloadLaws.TasksOnlyAdvance | FirebaseMLModelDownloader/Sources/ModelDownloadTask.swift:69-108 | a task's status only moves from ready over downloading to complete, handlers are only added at the end, and a complete task never changes |
| DownloadLaws.CompletionIsList | FirebaseMLModelDownloader/Sources/ModelDownloadTask.swift:74-86 | after any merges the nested closures run the handlers as a list in merge order |
| DownloadLaws.CallbackDelivers | FirebaseMLModelDownloader/Sources/ModelDownloader.swift:446-490 | every request of a task gets its result once, in merge order; after an expired URL the first ones retry as far as the budget goes and the others fail; one removal is queued for each but those |
| DownloadOutcomes.OutcomesExplained | FirebaseMLModelDownloader/Sources/ModelDownloader.swift:426-540 | in every run from the start a request has been given an outcome iff an event caused it: `Success` with a model iff a not-modified reply found that model or a callback of its task brought it, an info error after a failed info reply, the lost-model error iff a not-modified reply found none, the expiry error iff its URL expired and the retries did not cover it, any other result iff the callback of its task brought it; no request has two outcomes |
| DownloadOutcomes.RunOutcomes | FirebaseMLModelDownloader/Sources/ModelDownloader.swift:426-540 | the same from any state that keeps the invariant |
| DownloadOutcomes.StepOutcomes | FirebaseMLModelDownloader/Sources/ModelDownloader.swift:433-540 | one event delivers exactly what it causes |
| DownloadOutcomes.OwnModel | FirebaseMLModelDownloader/Sources/ModelDownloader.swift:491-522 | a callback tells a request only of a task for its own model name |
| DownloadOutcomes.DownloadsAsTold | FirebaseMLModelDownloader/Sources/ModelDownloader.swift:433-522 | in every run each task carries the model info of a reply to the request that started it, and each request has the name it was made with |
| DownloadOutcomes.QueueIsFifo | FirebaseMLModelDownloader/Sources/ModelDownloader.swift:486-522 | blocks run in the order in which they were queued, and only callbacks use up retries |
| DownloadProgress.StepLeft | FirebaseMLModelDownloader/Sources/ModelDownloader.swift:459-522 | every step other than a new request makes a measure of requests, queue, tasks and retries smaller |
| DownloadProgress.RunsEnd | FirebaseMLModelDownloader/Sources/ModelDownloader.swift:459-522 | without new requests a run has at most as many steps as that measure |
| DownloadProgress.RestDeliversAll | FirebaseMLModelDownloader/Sources/ModelDownloader.swift:426-540 | when nothing more can happen, every request has been delivered exactly once |
| DownloadProgress.DownloadsBounded | FirebaseMLModelDownloader/Sources/ModelDownloader.swift:458-521 | each task starts exactly one file download; downloads started never exceed requests plus retries used, and retries used never exceed the initial budget |
| DownloadProgress.RunStartsOnce | FirebaseMLModelDownloader/Sources/ModelDownloader.swift:491-522 | in every run the downloads started are those of the tasks, one each, in the order of the tasks |
| DownloadDictionary.TrackedStep | FirebaseMLModelDownloader/Sources/ModelDownloader.swift:486-521 | a step keeps every downloading task the dictionary's entry for its name iff it is not a removal whose name has a downloading task |
| DownloadDictionary.TrackedRun | FirebaseMLModelDownloader/Sources/ModelDownloader.swift:486-521 | in every run in which removals of a name come before its next registration, every downloading task is the dictionary's entry for its name |
| DownloadDictionary.TrackedIsUnique | FirebaseMLModelDownloader/Sources/ModelDownloader.swift:491-521 | then no model name has two downloading tasks |
| DownloadDictionary.FinishedLeaveRun | FirebaseMLModelDownloader/Sources/ModelDownloader.swift:446-490 | the other half, in every run: an entry of the dictionary is a downloading task, or its removal is pending, or the retries are used up |
| DownloadDictionary.RemovalCanForgetTask | FirebaseMLModelDownloader/Sources/ModelDownloader.swift:486-489 | some reachable state has two downloading tasks for one name, one of them forgotten, because removal is by name |
| ModelDownloader.ModelDownloader.Handle | FirebaseMLModelDownloader/Sources/ModelDownloader.swift:426-540 | after any possible events the objects are in a state of the protocol in which each request is in exactly one place and none was delivered twice; when nothing more can happen each was delivered once; what was delivered is what the events caused |
| ModelDownloader.ModelDownloader.NewRequest | FirebaseMLModelDownloader/Sources/ModelDownloader.swift:393-434 | the object does what the protocol's new request does |
| ModelDownloader.ModelDownloader.Reply | FirebaseMLModelDownloader/Sources/ModelDownloader.swift:433-540 | new info queues a registration; an unchanged model, a lost one and an error are delivered, each as `DownloadOutcomes.StepOutcomes` says |
| ModelDownloader.ModelDownloader.RunHead | FirebaseMLModelDownloader/Sources/ModelDownloader.swift:486-522 | runs the first block of the serial queue, a registration or a removal by name |
| ModelDownloader.ModelDownloader.Register | FirebaseMLModelDownloader/Sources/ModelDownloader.swift:491-522 | merges into the task kept under the name unless that is complete, and otherwise makes and starts a task |
| ModelDownloader.ModelDownloader.Resume | FirebaseMLModelDownloader/Sources/ModelDownloadTask.swift:93-122 | a task that is not downloading takes its downloader's completion slot and starts |
| ModelDownloader.ModelDownloader.FileCallback | FirebaseMLModelDownloader/Sources/ModelDownloadTask.swift:122-186 | completes the task in the downloader's slot and runs all its handlers |
| ModelDownloader.ModelDownloader.TaskCompletion | FirebaseMLModelDownloader/Sources/ModelDownloader.swift:446-490 | delivers or retries, and queues a removal unless the retries are used up |
| ModelDownloader.ModelDownloadTask.Merge | FirebaseMLModelDownloader/Sources/ModelDownloadTask.swift:74-86 | the new handler is called after all that were there |
| ModelStore.HonestIffEncodingsAgree | FirebaseMLModelDownloader/Sources/ModelDownloadTask.swift:296-369 | in every reachable store each model found is the file downloaded under its hash and size, iff file names and defaults keys confuse the same apps and models |
| StoreLaws.FoundAsPut | FirebaseMLModelDownloader/Sources/ModelDownloadTask.swift:296-369 | where the encodings agree the two-step store is a plain map: after any events the model found is the one whose file they leave, with its size and hash, where an accepted save puts the file unless an old one cannot be removed, one that fails at the move or for want of space leaves none, and deletes and losses take it |
| StoreLaws.SaveReturns | FirebaseMLModelDownloader/Sources/ModelDownloadTask.swift:190-369 | success iff the status is from 200 to 298, the directory is there and the file system lets the file be placed, with name, size, path and hash of the download; each status error iff its status |
| StoreLaws.SaveErrorsMean | FirebaseMLModelDownloader/Sources/ModelDownloadTask.swift:190-369 | each error with a text iff its own cause, the expired URL iff status 400 after the expiry; a failed save writes no defaults |
| StoreLaws.DeleteReturns | FirebaseMLModelDownloader/Sources/ModelDownloader.swift:300-351 | a delete takes the file and its info iff the model is on the device and the file can be removed, and changes nothing otherwise |
| ModelStore.EventsDescribed | FirebaseMLModelDownloader/Sources/LocalModelInfo.swift:49-78 | saves, saves that fail at the remove or move step, deletes, failed deletes and lost files never leave a file with another file's defaults entry |
| ModelStore.ConfusionLies | FirebaseMLModelDownloader/Sources/LocalModelInfo.swift:62-78 | two saves under names that only one encoding confuses leave a store that misreports a model |
| ModelStore.OneAppAgrees | FirebaseMLModelDownloader/Sources/ModelFileManager.swift:59-83 | within one app the two encodings always agree, with any model names without `/` |
| ModelStore.DotsConfuse | FirebaseMLModelDownloader/Sources/LocalModelInfo.swift:62-65 | across apps dots in names break the agreement |
| DeviceStore.DeviceStore.HandleResponse | FirebaseMLModelDownloader/Sources/ModelDownloadTask.swift:190-369 | each status and failure gives its error; after success the model is found on the device with the file and info of this download |
| DeviceStore.DeviceStore.MoveFile | FirebaseMLModelDownloader/Sources/ModelFileManager.swift:95-117 | a failed move leaves the old file, or no file when it was already removed, and never another one |
| DeviceStore.DeviceStore.DeleteDownloadedModel | FirebaseMLModelDownloader/Sources/ModelDownloader.swift:300-351 | after a delete neither the model nor its info is found; a model that is not on the device and a failed removal are told apart and change nothing |
| DeviceStore.DeviceStore.Handle | FirebaseMLModelDownloader/Sources/ModelDownloadTask.swift:296-369 | after any saves, deletes and losses, failed ones included, each model found is the file downloaded under its hash and size, for apps and models on which the encodings agree; on a new device it is the model that the events leave |
| ModelFreshness.RemoteIsCurrent | FirebaseMLModelDownloader/Sources/ModelInfoRetriever.swift:207-354 | against a server that obeys sections 13.1.2 and 15.4.5 of RFC 9110, whatever succeeds delivers the server's hash and leaves that model on the device; a download is started iff the local hash is not the server's; when it succeeds and with what is said by `ModelRequests.SucceedsIff` |
| ModelFreshness.LatestAgreesWithAlwaysDownload | FirebaseMLModelDownloader/Sources/ModelDownloader.swift:393-540 | a latest-model request that runs alone and succeeds delivers the same hash as one that always downloads, and starts no download when the local hash is current; name, size and file are said by `ModelRequests.SuccessLeaves` |
| ModelRequests.SucceedsIff | FirebaseMLModelDownloader/Sources/ModelDownloader.swift:433-540 | a request succeeds with a model iff, after any number of rounds with expired URLs that the retries cover, a round delivers it: a 304 reply with the local hash for a model that is on the device, or a 200 reply with that hash and size followed by a file that can be saved, under the requested name |
| ModelRequests.SuccessLeaves | FirebaseMLModelDownloader/Sources/ModelInfoRetriever.swift:532-560 | after a 304 nothing on the device has changed; after a save the file carries the hash, the size and the expiry of the 200 reply and no other file has changed; either way the model is found, and downloads are counted |
| ModelRequests.EndsAt | FirebaseMLModelDownloader/Sources/ModelDownloader.swift:446-540 | the first round that does not expire ends the request with its own error or model, and one that expires when the retries are gone ends it with the expiry error |
| ModelRequests.OpenIff | FirebaseMLModelDownloader/Sources/ModelDownloader.swift:459-485 | a request is still open iff all rounds so far expired and the retries cover them |
| ModelRequests.InfoMeans | FirebaseMLModelDownloader/Sources/ModelInfoRetriever.swift:189-448 | new info iff status 200 with a hash and a body that parses, with exactly its hash, size and expiry; not modified iff status 304 with the local hash; the status errors each iff their status |
| ModelRequests.InfoErrorsMean | FirebaseMLModelDownloader/Sources/ModelInfoRetriever.swift:207-354 | a missing hash, a body that does not parse, a lost local model and another hash each iff their own error |
| ModelFreshness.ExpiredKeepsStore | FirebaseMLModelDownloader/Sources/ModelDownloadTask.swift:190-226 | an expired URL, the only result that is retried, leaves the store as it was |
| ModelFileNames.NameComesBack | FirebaseMLModelDownloader/Sources/ModelFileManager.swift:59-72 | the model name is parsed back from its file name iff the app name has no `@@` and does not end in `@`, and the model name has no `@@` |
| ModelFileNames.SplitOff | FirebaseMLModelDownloader/Sources/ModelFileManager.swift:64-72 | a piece without `@@` that does not end in `@` is split off whole |
| ModelFileNames.AppEndingInAt | FirebaseMLModelDownloader/Sources/ModelFileManager.swift:64-72 | an app name that ends in `@` moves its last character to the model name |
| LocalDeps.FindLocalDeps | scripts/pod_lib_lint.rb:147-175 | ends on every finite graph; the results are, each once and without the root, exactly the local non-binary podspecs reachable through such podspecs without entering an ignored one; the set then holds the ignored ones, the root and the results |
| LocalDeps.AllDeps | scripts/pod_lib_lint.rb:129-142 | each pod that some spec depends on, once, with subspec parts cut off |
| ProjectLaws.SecondSyncIsIdleIff | scripts/sync_project.rb:399-430 | with one reference per path, a run reaches a fixed point, at which the next run goes through, changes nothing and returns 0, iff every file to add has a root group that contains it and no synced target is left with a stray file: an unwanted one in a phase other than its own whose reference stays |
| ProjectLaws.SecondCountIsZeroIff | scripts/sync_project.rb:399-430 | under the same condition, and only then, the next run goes through and returns 0 |
| ProjectLaws.SecondSyncIsIdle | scripts/sync_project.rb:399-430 | when every target file is in the phase that its extension chooses, that is iff every file to add has a root group |
| ProjectLaws.RaisesAgain | scripts/sync_project.rb:457-485 | a run that raises raises again, on the stored project and also on what it had added before it raised |
| ProjectLaws.SettledCompletes | scripts/sync_project.rb:399-430 | after a run that went through, the next one goes through |
| ProjectLaws.TargetHoldsMatchingIff | scripts/sync_project.rb:295-313 | a run goes through and a synced target then holds, outside headers, exactly the matching files that are left in the project, iff every file to add has a root group and no stray file is left in the target |
| ProjectLaws.TargetsHoldMatchingFiles | scripts/sync_project.rb:295-313 | when every target file is in its phase, a run that goes through leaves each synced target with exactly the matching files in its managed phases |
| ProjectPhases.FilesByExtension | scripts/sync_project.rb:399-533 | when every target file is in its phase, a run that goes through decides for every file: it is among the sources of a synced target iff the definition takes it, no rule ignores it, a group-relative reference to it is left and its extension is `.c`, `.cc`, `.m`, `.mm` or `.swift`; among the resources iff so with any other extension but `.h` |
| ProjectPhases.NewFileByExtension | scripts/sync_project.rb:499-533 | the same for a file that was not in the target, whatever else the target holds; no file is added as a header |
| ProjectPhases.PhaseByExtension | scripts/sync_project.rb:517-533 | sources iff the extension is one of the five, no phase iff it is `.h`, where the extension is the text from the last dot of the last component, its leading dots not counting |
| ProjectPhases.ReferencesLeft | scripts/sync_project.rb:399-495 | a run keeps a reference unless it is in the groups and its file is neither found nor on disk, and adds one for each found file that no reference in the groups has |
| ProjectPhases.TwoDotsAreOutside | scripts/sync_project.rb:476-485 | a file whose name starts with two dots is in no root group of its directory |
| ProjectLaws.CountIsZeroIff | scripts/sync_project.rb:399-430 | with one reference per path a run returns 0 iff it goes through, leaves the project unchanged and finds no stray file in it |
| ProjectLaws.CountIsZeroIffUnchanged | scripts/sync_project.rb:399-430 | when every target file is in its phase, a run that goes through returns 0 iff it left the project unchanged |
| ProjectLaws.CountIsHonest | scripts/sync_project.rb:399-430 | the count of a run that goes through is the number of references, and of files in the managed phases of the synced targets, by which the project before and after differ |
| ProjectLaws.UncountedRemovals | scripts/sync_project.rb:490-495 | what the count leaves out: headers phases and targets without a definition lose exactly the removed files, uncounted |
| ProjectLaws.SyncKeepsProper | scripts/sync_project.rb:399-430 | one reference per path and each target file in its phase are kept, if no reference outside the groups names a file that is about to be added |
| ProjectLaws.StrayFileStays | scripts/sync_project.rb:499-533 | a source file among the resources, with its reference and on disk, that no definition wants: the second run counts it again |
| ProjectSync.Syncer.Sync | scripts/sync_project.rb:399-485 | raises iff some file to add has no root group, with no target changed and references added only for files that have one; otherwise the loops over diffs, targets and entries, in any order, leave the project and return the count of the value model, with each new target file in the phase of its extension; either way the groups again hold the references that are in groups and lead to the same files on disk, so that it can be run again |
| ProjectSync.OutsideFileRaises | scripts/sync_project.rb:476-485 | such an input: a root group `/r` with a subgroup for `/out` that holds an untracked file; it has one reference per path and no stray file, and every run raises |
| ProjectSync.Syncer.FindGroupContaining | scripts/sync_project.rb:476-485 | the first root group from whose directory the relative path does not start with two dots, and none iff there is no such group |
| ProjectSync.StillDescribes | scripts/sync_project.rb:457-495 | additions wherever `find_subpath` leads and removals keep the root groups, keep groups and references in step, and lead to the same files |
| GroupDiffer.DiffGroups | scripts/sync_project.rb:734-802 | on any groups and directories, shared or cyclic, the walk ends; the source side is exactly the files in directories below the groups' directories and the referenced paths that are files, the target side is the referenced paths, and each entry remembers a reference |
| GroupDiffer.GroupDiffer.DiffProjectFiles | scripts/sync_project.rb:766-783 | one group with its subgroups adds its references to the target side and lists all directories below it |
| GroupDiffer.GroupDiffer.FindFsFiles | scripts/sync_project.rb:785-801 | after the call the directory and all it leads to are listed, each once, and nothing else is; directories still being listed are the only ones with entries left |
| GroupDiffer.AllFound | scripts/sync_project.rb:785-801 | once no directory is open, a file has been found iff some way down from a group's directory leads to it |
| GroupDiffer.NewGroupsFindNothing | scripts/sync_project.rb:457-471 | new groups for directories below the old ones lead to no other files, so a second run finds the same files on disk |
| GroupTree.InsertAdds | scripts/sync_project.rb:462-466 | wherever a reference is put, below existing subgroups or new ones, its root group then has it and nothing else, and new directories only for groups that were made |
| GroupTree.DropRemoves | scripts/sync_project.rb:490-495 | removing a reference takes it and no other out of all groups and keeps their directories |
| ProjectSync.Syncer.DiffGroups | scripts/sync_project.rb:399-404 | the group diff of the syncer compares what is on disk with what is in the groups |
| ProjectSync.Syncer.DiffTarget | scripts/sync_project.rb:295-331 | the source side is the matching files and the target side is the files of all three phases |
| ProjectSync.Syncer.SyncEntries | scripts/sync_project.rb:411-420 | the entries, in any order, bring the target in line and are counted once each |
| ProjectSync.Syncer.SyncTargetEntry | scripts/sync_project.rb:499-533 | one entry does its part of bringing the target in line and of the count; a file goes to or leaves the sources for `.c`, `.cc`, `.m`, `.mm` and `.swift`, the resources for other extensions, and headers are left alone |
| ProjectSync.Syncer.FindProjectFilesAfterRemoval | scripts/sync_project.rb:434-453 | the group-relative files that are neither to be removed nor ignored |
| ProjectSync.Syncer.AddToProject | scripts/sync_project.rb:457-485 | goes through iff every path has a root group, and then adds one reference per path to the references and into the groups; otherwise it has added references only for paths that have one |
| ProjectSync.Syncer.RemoveFromProject | scripts/sync_project.rb:490-495 | exactly the remembered references go, from the project, from the groups and from every phase |
| ProjectSync.AllRemembered | scripts/sync_project.rb:490-495 | with one reference per path the remembered references are all references to the paths that are removed |
| ProjectDiff.Diff.Track | scripts/sync_project.rb:678-686 | finds the entry of a path or makes one, and changes no other |
| ProjectDiff.Diff.Changes | scripts/sync_project.rb:703-705 | the number of paths on one side only |

## Left out

- cpplint's style checks, command line, configuration and output, which are independent one-branch checks.
- NestingState.NestingState.Update: the regular expressions are not modelled; a `Line` record says what they find on a line. The error messages of `CheckBegin` and `CheckEnd` and `previous_stack_top` are not part of the model.
- Scanners: white space and word characters are the ASCII ones; Python's also cover other scripts.
- ForwardScan.GetTextInside: the start pattern is a parameter that gives the end of its match.
- IncludeOrder.IncludeState.CheckNextIncludeOrder: the wording of the message and the alphabetical check are not modelled.
- ModelDownloader.ModelDownloader.RunHead: thread races inside a serial-queue block or a callback; each is one atomic step.
- URLSession, FileManager, GULUserDefaults and Installations are replies, a file map and a key-value map; each download has one callback. That a downloader's session is invalidated after a download, before a retry uses the downloader again, is not modelled.
- Telemetry, device logging, progress handlers and the texts of error descriptions.
- `listDownloadedModels` and the modes of `getModel` that read the device only.
- ModelFileNames.NameComesBack: app and model names contain no `/`.
- ProjectSync.Syncer.Sync: one reference per path is required, because references are known by their path and phases hold paths; projects that refer to one file twice are not modelled.
- ProjectSync.Syncer.AddToProject: which subgroup `find_subpath` finds or makes is a parameter; a group that is made stands for a directory below the groups' directories, its parent's when it has no path of its own. An exception stands for `false`, and the text of its message is not modelled.
- ProjectValues.Contains: paths are absolute and clean, so that a relative path is what follows the directory.
- A phase lists each file once and every entry of a phase has a reference, since phases are sets of paths. A group's directory is a directory or does not exist, and the directories are finitely many.
- Directory listings are given without their ignored entries, and ignore and match patterns are predicates on paths.
- Xcodeproj and CocoaPods themselves, xcconfig writing, sorting, and headers phases, which the syncer does not manage.
- The other products of the repository: declarations, network clients and user interface with only easy properties.
