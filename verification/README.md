# Verified model of the control plane's core

This project models the parts of the control plane that hold state, loops or arithmetic, and proves
what they guarantee. `dafny verify dfyconfig.toml` checks all of it. Operations that the program runs
by changing fields or by looping are classes and methods here, each proved against a specification
function or relation; the guarantees over whole runs are lemmas about those specifications.

## Components

- **Task lifecycle** (`BoardModel`, `TaskRules`, `TaskService`, `DependencyGraph`, `BoardInvariants`,
  `ApprovalInvariants`, `BoardRuns`, `BoardHistory`, `BoardUpdates`, `BoardRecords`). One board is a
  state machine over HTTP requests: create, update (by a lead agent, a worker agent or a user), delete, comment, create and update
  approvals, change the board's rules and its agents. `TaskService` performs a request step by step on
  its fields and is proved equal to `TaskRules.Apply`. Over every run: dependencies stay acyclic, each
  task has at most one pending approval, tasks turn done only through the gates, tasks with an
  unfinished dependency stay parked, and a returned review task goes to the worker who moved it last.
  `BoardUpdates` and `BoardRecords` say of every request, in terms of the rows of the board only, when
  it is accepted, with which refusal otherwise, and what every field and the log are afterwards.
- **Streaming index reader** (`JsonDecoder`, `JsonWriting`, `JsonAccepted`, `JsonPrefix`, `JsonStream`,
  `JsonText`, `JsonChunking`, `JsonMembers`, `JsonSafety`, `JsonCuts`, `JsonFixedChunks`, `JsonGaps`,
  `JsonObjectGaps`, `JsonDocuments`, `StreamingJsonReader`). A decoder for RFC 8259 values stands for
  `raw_decode`; it gives back every value from every way of writing it, and decodes nothing else. The
  reader's buffer, position and end-of-file flag are fields of a class proved equal to a function of the chunks. A
  chunking is a text with its cut positions, and it is smooth when no blank chunk is followed by more
  white space. Proved: no chunking ever gives other entries than the complete text; exactly which texts
  are read alike for all chunkings, and which for all smooth ones; and agreement with decoding the
  whole document.
- **Rate limiters** (`AttemptLog`, `RateLimiters`). The bounded deque with its sweep and the Redis
  sorted-set script both answer as the unbounded log of attempts does, hence alike, and never allow
  more than the maximum of calls on one key in a window.
- **Event streams** (`EventStream`). Over all runs, the high-water mark with a bounded window of sent
  ids never sends an event twice if and only if, from the start time on, no more events share one time
  than the window holds. Then it delivers an event exactly when some poll sees it before anything later
  has been sent, so an event that becomes visible below the mark is lost.
- **Contracts** (`ContractSchema`, `ContractMeaning`, `ContractFaults`, `ContractTypes`, `ContractSoundness`).
  The checker accepts exactly what satisfies a schema and otherwise reports the first fault at its
  place, the order of a type list matters exactly when leaders change, and exactly those schemas whose generated TypeScript type covers every accepted payload are known.
- **Calendar buckets** (`Calendar`, `MetricBuckets`), **custom fields** (`CustomFields`), **payload
  preview** (`PayloadPreview`), **pack sync** (`PackSync`), **token hashes** (`Base64Url`,
  `AgentTokens`) and **slugs** (`Slugs`).

## Where the code differs from what one would expect

The model follows the code; each of these is a lemma.

- A lead may add an unfinished dependency to a task in progress; the task then stays active although it
  is blocked (`BoardRuns.LeadEditCanBlockActiveTask`). `BoardRuns.PatchKeepsSafe` says that this is the
  only such update.
- The white-space skipper stops at the start of a freshly read chunk even if that chunk starts with
  white space, so a blank chunk followed by more white space can break a valid file
  (`JsonSafety.BlankChunkBreaks`). `JsonObjectGaps.ChunkingIff` says for which texts no chunking does:
  at most two white-space characters come first; in an array at most one stands before a comma or the
  closing bracket; in an object at most one before a comma or before a brace where a key is expected,
  three before the brace behind a member, two before a colon. Two in front of the bracket of "skills"
  hide it, and the array is then decoded in one go. Chunks of fixed size are safe unless the file has
  more white space in a row than a chunk holds (`JsonSafety.FixedChunksAreSmooth`), and that bound is
  sharp for every size (`JsonSafety.FixedBoundIsSharp`).
- In an index that is an object, a member whose direct value is a number of several digits can be cut
  by a chunk boundary, and the read then fails (`JsonCuts.ChunkingIrrelevant`). For every chunk size
  there is a valid index without any white space that is refused so (`JsonFixedChunks.NumberAcrossBoundary`).
- Streaming collects every "skills" array of an object, while the coercion of the whole document takes
  the last one only; they agree exactly when the earlier ones are empty (`JsonDocuments.PickedIsCoerced`).
- A "skills" member that is no array is accepted only as the last member
  (`JsonDocuments.PickedIsCoerced`), while coercing the whole document would just ignore it.
- The checker takes `true` for the enum literal 1 (`ContractTypes.EnumMixup`), skips object checks for
  names inside nested type lists (`ContractSoundness.NestedListMixup`), and lets an unknown type name in
  front of "object" switch the object checks off (`ContractMeaning.UnknownNameMatters`).
  `ContractSoundness.SoundIff` says for which schemas the generated type therefore promises too much.
- When more events from the start on share one time than the window holds, two polls that both see
  them send one of them twice (`EventStream.NoRepeatIff`), even if nothing has changed in between
  (`EventStream.QuietPoll`). An event that becomes visible after a later one has been sent is never
  delivered (`EventStream.DeliveredIff`).

## Model

| member | source | states |
|---|---|---|
| `BoardModel.MovedMatchesReviewOnly` | backend/app/api/tasks.py:2220-2245 | the message prefix that the query for review moves tests for is on exactly the entries about moves into review, whatever the task's title |
| `DependencyGraph.HasCycle` | backend/app/services/task_dependencies.py:111-129 | the depth-first search reports a cycle exactly when some walk along the dependencies returns to its start |
| `DependencyGraph.CycleSearch.Visit` | backend/app/services/task_dependencies.py:116-126 | one visit either finds a real cycle or leaves a topological order that contains the vertex |
| `DependencyGraph.TopologicalMeansAcyclic` | backend/app/services/task_dependencies.py:111-129 | a topological order of all depended-on tasks rules out every cycle |
| `TaskService.TaskService.ValidateDependencyUpdate` | backend/app/services/task_dependencies.py:132-193 | self dependency, unknown task and cycle are refused in this order; otherwise the distinct ids come back |
| `TaskService.TaskService.UpdateTask` | backend/app/api/tasks.py:1678-1739 | an update by any actor performs exactly the request of the board specification, or is refused and changes nothing |
| `TaskService.TaskService.ApplyLeadTaskUpdate` | backend/app/api/tasks.py:2393-2488 | the lead's rule set with its gates, equal to the specification or refused without effect |
| `TaskService.TaskService.ApplyNonLeadAgentTaskRules` | backend/app/api/tasks.py:2491-2571 | the worker's rule set gives the specified draft of the task or the specified refusal; `BoardUpdates.WorkerUpdateEffect` says what an accepted one leaves |
| `TaskService.TaskService.ApplyAdminTaskRules` | backend/app/api/tasks.py:2574-2644 | the user's rule set, with blocked tasks forced back to the inbox, gives the specified draft or refusal |
| `TaskService.TaskService.LeadApplyAssignment` | backend/app/api/tasks.py:2196-2217 | accepted exactly when no one is named or a known agent that is no lead and belongs to this board or to none; nothing but the assignee changes, and it becomes the named one |
| `TaskService.TaskService.LeadApplyStatus` | backend/app/api/tasks.py:2248-2291 | gives the specified task or refusal; `BoardHistory.LeadUpdateEffect` says which moves that allows |
| `TaskService.TaskService.LastWorkerWhoMovedTaskToReview` | backend/app/api/tasks.py:2220-2245 | the backward walk over the log finds the last listed agent that may take the task back |
| `TaskService.TaskService.FinalizeUpdatedTask` | backend/app/api/tasks.py:2810-2898 | gates, review comment and field checks in order, then the review task goes to the lead and the commit happens; `BoardUpdates.UpdateAnswered` says when that is refused |
| `TaskService.TaskService.ReconcileDependents` | backend/app/api/tasks.py:472-569 | the loop over dependents equals the specified reconciliation |
| `TaskService.TaskService.RecordTaskUpdate` | backend/app/api/tasks.py:2669-2700 | a status change and any other update leave their specific log entries |
| `TaskService.TaskService.CreateTaskRow` | backend/app/api/tasks.py:1581-1675 | creating a task performs the specified request or is refused without effect |
| `TaskService.TaskService.DeleteTaskRow` | backend/app/api/tasks.py:1742-1825 | deleting a task removes its log entries, links, dependencies and row and re-points or removes approvals |
| `TaskService.TaskService.CreateApprovalRow` | backend/app/api/approvals.py:426-470 | creating an approval performs the specified request or is refused without effect |
| `TaskService.TaskService.UpdateApproval` | backend/app/api/approvals.py:473-520 | resolving or re-opening an approval performs the specified request or is refused without effect; `BoardRecords.ResolveAnswered` and `BoardRecords.ResolveEffect` say what that is |
| `BoardInvariants.CommitEffect` | backend/app/api/tasks.py:472-569 | a commit changes the patched task as drafted, resets exactly the unfinished dependents of a task that stops being done, and touches nothing else |
| `BoardInvariants.CommitSafe` | backend/app/api/tasks.py:2810-2898 | a commit keeps every blocked task parked or done if and only if the patched task itself ends up so |
| `BoardInvariants.LeadDraftSafe` | backend/app/api/tasks.py:2412-2418 | a lead's update leaves the patched task safe if and only if it is not a dependency edit that blocks an active task |
| `BoardRuns.PatchKeepsSafe` | backend/app/api/tasks.py:1678-1739 | an accepted update by anyone keeps dependency safety if and only if it is not that lead edit |
| `BoardRuns.CreateKeepsSafe` | backend/app/api/tasks.py:1618-1640 | creating a task keeps dependency safety |
| `BoardRuns.DeleteKeepsSafe` | backend/app/api/tasks.py:1742-1803 | deleting a task keeps dependency safety |
| `BoardRuns.RunKeepsSafe` | backend/app/api/tasks.py:472-569 | over every run in which no such lead edit is accepted, a task with an unfinished dependency is done, or in the inbox, unassigned and not started |
| `BoardRuns.RunKeepsBoard` | backend/app/api/approvals.py:170-191 | over every run, dependencies stay acyclic and inside the board, and each task has at most one pending approval |
| `BoardRuns.LeadEditCanBlockActiveTask` | backend/app/api/tasks.py:2393-2442 | a concrete run in which a lead's dependency edit leaves a task in progress blocked |
| `BoardHistory.DoneOnlyThroughGates` | backend/app/api/tasks.py:236-276 | a task turns done only by its own update, with all dependencies done, with an approved approval unless waived, and from review when required |
| `BoardHistory.LeadUpdateEffect` | backend/app/api/tasks.py:2196-2291 | an accepted update by a lead changes no other task; its own moves only as requested and only from review to done or inbox, or from inbox to in progress with an assignee; a named assignee is no lead and of this board or none; title and the rest stay |
| `BoardHistory.RunDoneOnlyThroughGates` | backend/app/api/tasks.py:2815-2837 | the same at every request of every run |
| `BoardHistory.StepRows` | backend/app/api/tasks.py:2669-2692 | a request adds to the matched log entries exactly its own transition into review |
| `BoardHistory.RowsAreReviewMoves` | backend/app/api/tasks.py:2220-2245 | over every run, the matched log entries of a task are exactly its transitions into review by agents |
| `BoardHistory.RunLogOrdered` | backend/app/api/tasks.py:2220-2245 | the log times of every run are distinct and increasing |
| `BoardHistory.DescendingRowsAreReversed` | backend/app/api/tasks.py:2226-2236 | any listing of the matching entries by descending time is the log order reversed |
| `BoardHistory.ListingIff` | backend/app/api/tasks.py:2226-2236 | for a clock that may stand still, every listing of the matching entries by descending time is the log order reversed if and only if entries of one time do not differ |
| `BoardHistory.LeadReturnsToLastMover` | backend/app/api/tasks.py:2283-2291 | after any run, a review task a lead returns to the inbox goes to the most recent agent who moved it into review and is still a non-lead agent of the board |
| `BoardUpdates.UpdateAnswered` | backend/app/api/tasks.py:1678-1739 | for every actor and request, an update is accepted, or refused for the first reason that applies, read off the tasks, agents, approvals, links and log alone |
| `BoardUpdates.UpdateEffect` | backend/app/api/tasks.py:2393-2644 | for every actor, an accepted update leaves the task as its rules say field by field, gives it exactly the requested dependencies, resets exactly the unfinished dependents of a reopened task, and changes nothing else of the board but the log |
| `BoardUpdates.WorkerUpdateEffect` | backend/app/api/tasks.py:2491-2571 | an accepted update by a worker: in progress, the task is the sender's and started now; done, it is the sender's with its start kept; in the inbox or in review its start is cleared and kept as the previous one, with no assignee or the first lead; the rest stays |
| `BoardUpdates.PendingStopsMoves` | backend/app/api/tasks.py:292-325 | on a board that blocks, a requested change of status succeeds only if no approval is pending for the task |
| `BoardUpdates.RunPendingStopsMoves` | backend/app/api/tasks.py:292-325 | the same at every request of every run |
| `BoardUpdates.UpdateLogged` | backend/app/api/tasks.py:2647-2700 | an accepted update logs the sender's comment if it says something, one entry about the task and, when the task was finished or reopened, one entry for each unfinished dependent, and nothing else |
| `BoardUpdates.LatestRows` | backend/app/api/tasks.py:327-347 | the comment that may explain a move to review is the last one on the task by that author since that time, if there is one |
| `BoardRecords.CreateAnswered` | backend/app/api/tasks.py:1581-1640 | a new task is accepted, or refused for the first reason that applies; its dependencies can never close a cycle |
| `BoardRecords.CreateEffect` | backend/app/api/tasks.py:1618-1675 | the task is stored as given with its dependencies and one log entry, and nothing else changes |
| `BoardRecords.DeleteEffect` | backend/app/api/tasks.py:1742-1803 | deleting is refused only for an unknown task; it removes the task, its dependencies, log entries and links, and moves the approvals made for it to their first other task or removes them |
| `BoardRecords.CommentEffect` | backend/app/api/tasks.py:2900-2916 | a comment that says something on a known task adds one log entry, and any other is refused |
| `BoardRecords.ResolveAnswered` | backend/app/api/approvals.py:483-498 | a change of an approval is refused exactly if it is unknown, or is re-opened while another one is pending for a task it is about |
| `BoardRecords.ResolveEffect` | backend/app/api/approvals.py:499-504 | the approval gets the status that was asked for, and nothing else changes |
| `BoardRecords.ResolveCounts` | backend/app/api/approvals.py:483-504 | once approved it counts as approved for each of its tasks, once re-opened it is pending for exactly them, once rejected it counts for neither |
| `BoardRecords.NewApprovalAnswered` | backend/app/api/approvals.py:426-448 | a new approval is refused exactly if its id is taken, or if it is pending and another one is pending for one of its tasks |
| `BoardRecords.NewApprovalEffect` | backend/app/api/approvals.py:449-470 | it is stored with its status and its first task, linked to exactly its tasks, and nothing else changes |
| `BoardRecords.RunLead` | backend/app/api/tasks.py:2810-2898 | after every run the first lead, to whom tasks in review go, is a lead of the board, or the board has none |
| `ApprovalInvariants.NewApprovalKeeps` | backend/app/api/approvals.py:426-461 | a new approval keeps at most one pending approval per task |
| `ApprovalInvariants.ApprovalStatusKeeps` | backend/app/api/approvals.py:483-504 | resolving or re-opening keeps at most one pending approval per task |
| `ApprovalInvariants.DeleteKeeps` | backend/app/api/tasks.py:1761-1802 | after a deletion no approval has the task as primary or link, and all approvals about other tasks stand as before |
| `JsonWriting.DocumentRead` | backend/app/api/skills_marketplace.py:311-326 | every way of writing a value, with any white space, raw or escaped characters, short escapes, hexadecimal digits and surrogate pairs, is decoded to that value |
| `JsonAccepted.DecodedIff` | backend/app/api/skills_marketplace.py:311-326 | a text is decoded to a value if and only if it is one of these ways of writing it |
| `JsonAccepted.ExpressibleIff` | backend/app/api/skills_marketplace.py:311-326 | some text is decoded to a value if and only if its strings are code points without split surrogate pairs and its numbers and words are spelled as such |
| `JsonPrefix.ValueExtends` | backend/app/api/skills_marketplace.py:311-326 | a value decoded from a prefix of the text, unless it is a number at its end, is the value of the whole text |
| `JsonPrefix.ValueRestricts` | backend/app/api/skills_marketplace.py:311-326 | a value that ends inside a prefix is decoded from that prefix |
| `StreamingJsonReader.StreamingJsonReader.FillBuffer` | backend/app/api/skills_marketplace.py:281-289 | appends the next chunk, or sets the end-of-file flag |
| `StreamingJsonReader.StreamingJsonReader.SkipWhitespace` | backend/app/api/skills_marketplace.py:297-309 | leaves position and chunk count as specified, at the end of the buffer only at the end of the file; terminates |
| `StreamingJsonReader.StreamingJsonReader.DecodeValue` | backend/app/api/skills_marketplace.py:311-326 | returns the value the chunks specify, or reports invalid JSON; terminates on unread chunks and the end-of-file flag; `JsonAccepted.DecodedIff` says which values texts stand for |
| `StreamingJsonReader.StreamingJsonReader.ConsumeChar` | backend/app/api/skills_marketplace.py:328-339 | moves over the expected character, or reports that something else or nothing follows |
| `StreamingJsonReader.StreamingJsonReader.ReadArrayValues` | backend/app/api/skills_marketplace.py:356-376 | yields the objects up to the closing bracket that the chunks specify; terminates on the unconsumed text |
| `StreamingJsonReader.StreamingJsonReader.ReadSkillsFromObject` | backend/app/api/skills_marketplace.py:378-431 | yields the entries under "skills" that the chunks specify; terminates on the unconsumed text |
| `StreamingJsonReader.StreamingJsonReader.ReadTopLevelEntries` | backend/app/api/skills_marketplace.py:341-354 | the whole read, equal to the specification for every file |
| `JsonChunking.LookSettles` | backend/app/api/skills_marketplace.py:291-309 | without blank chunks before more white space, a look always shows the next visible character of the text, or its end |
| `JsonChunking.DecodeFromChunks` | backend/app/api/skills_marketplace.py:311-326 | decoding from chunks gives what the whole text gives, except that a number may be cut short before a further number character |
| `JsonChunking.ArraySame` | backend/app/api/skills_marketplace.py:356-376 | smooth chunk boundaries never matter among the entries of an array |
| `JsonChunking.ObjectSame` | backend/app/api/skills_marketplace.py:378-431 | smooth chunk boundaries do not matter in an object without direct members that are numbers of several digits |
| `JsonMembers.ElementsRead` | backend/app/api/skills_marketplace.py:356-376 | reading the elements of a valid array gives all of them if they are objects, else a failure |
| `JsonMembers.MembersRead` | backend/app/api/skills_marketplace.py:378-431 | reading the members of a valid object gives the entries of its "skills" arrays, or a failure, as specified on the decoded members |
| `JsonMembers.ReadTextPicks` | backend/app/api/skills_marketplace.py:341-354 | on every valid document, reading the complete text picks from the decoded document |
| `JsonSafety.NeverOtherEntries` | backend/app/api/skills_marketplace.py:281-431 | every chunking of every text gives the entries of the complete text or a failure |
| `JsonSafety.FixedChunksAreSmooth` | backend/app/api/skills_marketplace.py:281-309 | chunks of a fixed size are smooth if no more white space stands in a row than a chunk holds |
| `JsonSafety.BlankChunkBreaks` | backend/app/api/skills_marketplace.py:297-309 | the empty array is refused when a blank chunk is followed by a chunk that starts with a blank |
| `JsonSafety.FixedBoundIsSharp` | backend/app/api/skills_marketplace.py:281-309 | for every chunk size, a valid array with one more white-space character in a row than a chunk holds is refused |
| `JsonCuts.CutBreaks` | backend/app/api/skills_marketplace.py:378-431 | if some direct member is a number of several digits, a cut inside the first of them makes the read fail |
| `JsonCuts.ChunkingIrrelevant` | backend/app/api/skills_marketplace.py:281-431 | every smooth chunking gives the result of the complete text if and only if that is a failure, the text is no object, or no direct member is a number of several digits |
| `JsonFixedChunks.NumberAcrossBoundary` | backend/app/api/skills_marketplace.py:281-431 | for every chunk size, some valid index without white space is refused because a number of two digits lies across a boundary |
| `JsonGaps.TightArraySame` | backend/app/api/skills_marketplace.py:356-376 | with at most one white-space character before each comma and closing bracket, no chunk boundary matters among the entries of an array |
| `JsonGaps.WideGapBreaks` | backend/app/api/skills_marketplace.py:297-309 | two white-space characters before a comma or closing bracket can be split so that the read fails |
| `JsonGaps.ArrayChunkingIff` | backend/app/api/skills_marketplace.py:281-376 | every chunking of an array gives the result of the complete text if and only if that is a failure, or at most two white-space characters come first and at most one before each comma and the closing bracket |
| `JsonObjectGaps.TightObjectSame` | backend/app/api/skills_marketplace.py:378-431 | with little enough white space before commas, colons, braces and the bracket of "skills", and no long direct numbers, no chunk boundary matters among the members of an object |
| `JsonObjectGaps.LooseObjectBreaks` | backend/app/api/skills_marketplace.py:378-431 | any other amount of white space in an object can be split so that the read fails |
| `JsonObjectGaps.ObjectChunkingIff` | backend/app/api/skills_marketplace.py:281-431 | every chunking of an object gives the result of the complete text if and only if that is a failure, or at most two white-space characters come first, no direct member is a number of several digits and the object is tight |
| `JsonObjectGaps.ChunkingIff` | backend/app/api/skills_marketplace.py:281-431 | the same for every text, array, object or neither |
| `JsonDocuments.ArrayDocumentRead` | backend/app/api/skills_marketplace.py:356-376 | an array document is read alike for every smooth chunking: its items if all are objects, else a failure |
| `JsonDocuments.ObjectDocumentRead` | backend/app/api/skills_marketplace.py:378-431 | an object document is read as its members say for every smooth chunking if and only if it is refused anyway or has no long direct numbers |
| `JsonDocuments.DocumentReadIff` | backend/app/api/skills_marketplace.py:281-431 | a valid document is read as the decoded document says for every chunking if and only if it is refused anyway, or its text is tight and no direct member is a long number |
| `JsonDocuments.StreamedWhenFit` | backend/app/api/skills_marketplace.py:396-431 | the members are accepted exactly when each "skills" member is an array of objects, or is last and no array |
| `JsonDocuments.CoercedIff` | backend/app/api/skills_marketplace.py:259-268 | the coercion keeps exactly the objects of an array, or of the array that is the last value under "skills" |
| `JsonDocuments.PickedIsCoerced` | backend/app/api/skills_marketplace.py:259-268 | the reader picks what decoding and coercing the whole document gives if and only if the array holds objects only, or each "skills" member of the object is an array of objects or last and no array, and all but the last of several are empty |
| `JsonDocuments.IndexRead` | backend/app/api/skills_marketplace.py:259-268 | a fitting index without long direct numbers is read exactly as whole-document parsing followed by the coercion, for every smooth chunking, and for every chunking if its text is tight |
| `JsonDocuments.IndexReadIff` | backend/app/api/skills_marketplace.py:259-268 | a valid document is read as whole-document parsing followed by the coercion for every chunking if and only if it is such a fitting index, its text is tight and it has no long direct numbers |
| `AttemptLog.OtherKeysIgnored` | backend/app/core/rate_limit.py:99-103 | attempts on other keys never matter |
| `AttemptLog.WindowHoldsAtMostMax` | backend/app/core/rate_limit.py:104-115 | however the times of a key lie, at most the maximum of them count as allowed in any window of the configured length |
| `AttemptLog.RunAllowsAtMostMax` | backend/app/core/rate_limit.py:88-115 | whatever the run, the answers of a limiter allow at most the maximum of calls on a key in any window of the configured length |
| `AttemptLog.AdmitsIsAllowedAt` | backend/app/core/rate_limit.py:104-115 | the answer to an attempt is the one its place among the attempts on its key gives |
| `AttemptLog.AdmitsIff` | backend/app/core/rate_limit.py:104-115 | an attempt is allowed if and only if fewer than the maximum of attempts in the log have its key and lie in its window |
| `AttemptLog.PrunedStandsFor` | backend/app/core/rate_limit.py:104-108 | a pruned bucket still stands for the whole log, and its size decides as the count over the whole log does |
| `AttemptLog.PushedStandsFor` | backend/app/core/rate_limit.py:106-115 | keeping only the latest attempts keeps the bucket faithful |
| `RateLimiters.InMemoryRateLimiter.SweepExpired` | backend/app/core/rate_limit.py:80-86 | removes exactly buckets whose times have all expired, and leaves none of them |
| `RateLimiters.InMemoryRateLimiter.IsAllowed` | backend/app/core/rate_limit.py:88-115 | true exactly when fewer than the maximum of earlier attempts on the key, allowed or blocked, lie in the window; the bucket stays bounded |
| `RateLimiters.RedisRateLimiter.IsAllowed` | backend/app/core/rate_limit.py:143-173 | the same answer, with the set bounded, whether or not the server has dropped an outlived key |
| `RateLimiters.RunScript` | backend/app/core/rate_limit.py:31-47 | the script's scores are the pruned and pushed bucket; members stay unique |
| `RateLimiters.InsertedScores` | backend/app/core/rate_limit.py:35-45 | ties in score do not matter when the latest entry is added |
| `RateLimiters.DroppedWasExpired` | backend/app/core/rate_limit.py:36-46 | the time to live never drops an attempt that still counts |
| `RateLimiters.RunBoth` | backend/app/core/rate_limit.py:70-173 | both limiters give the same answers, those of the attempt log, on every common run, and these allow at most the maximum of calls on any key in any window |
| `EventStream.EventGenerator.Send` | backend/app/api/activity.py:503-509 | the queue always holds the last ids sent, the set holds what the queue holds, the mark is the latest time sent |
| `EventStream.EventGenerator.Poll` | backend/app/api/activity.py:488-518 | one poll sends what the window does not know, in the order of the rows |
| `EventStream.PollSendsUnsent` | backend/app/api/activity.py:500-509 | while the ties at the mark fit the window, a poll sends exactly the rows not sent before |
| `EventStream.DeliveredIff` | backend/app/api/activity.py:488-518 | while the events at each time from the start on fit the window, and whenever events become visible, every run delivers in the order of time, none twice, and an event exactly when some poll sees it before anything later has been sent |
| `EventStream.ExactlyOnce` | backend/app/api/tasks.py:1490-1519 | if also new events are never older than what has been sent, every run delivers exactly the visible events from the start time on, each once, in the order of time |
| `EventStream.NoRepeatIff` | backend/app/api/activity.py:488-518 | no run of polls ever sends an event twice, whenever events become visible, if and only if from the start time on no more events share one time than the window holds |
| `EventStream.QuietPoll` | backend/app/api/activity.py:488-518 | with nothing new, a poll sends nothing if and only if the events at the mark fit the window |
| `ContractMeaning.ValidIff` | backend/app/contracts/json_schema.py:31-118 | the checker accepts a payload if and only if it satisfies the keywords' declarative meaning |
| `ContractMeaning.PrimaryTypeGoverns` | backend/app/contracts/json_schema.py:109-118 | the deciding type is the first name of the list that the value matches |
| `ContractMeaning.ReorderIff` | backend/app/contracts/json_schema.py:89-118 | reordering a type list never changes acceptance if and only if "object" and "array" keep their lead |
| `ContractMeaning.KnownNamesReorder` | backend/app/contracts/json_schema.py:89-118 | with known names only, the order of a type list never matters |
| `ContractMeaning.UnknownNameMatters` | backend/app/contracts/json_schema.py:106-118 | an unknown name in the list makes the order matter |
| `ContractFaults.ReportedIff` | backend/app/contracts/json_schema.py:31-87 | the checker reports a fault if and only if its path leads to a value that violates that keyword, nothing is wrong on the way or in earlier parts, and no keyword checked before is violated there |
| `ContractTypes.TsTypeExpr` | scripts/generate_contract_artifacts.py:57-83 | the generator that appends union parts and members computes the specified type |
| `ContractTypes.VariantsExact` | backend/app/contracts/json_schema.py:38-39 | the values the checker takes for a literal are exactly its finitely many variants, with booleans for numbers and numbers for booleans at any depth |
| `ContractTypes.EnumSoundIff` | scripts/generate_contract_artifacts.py:59-61 | for every enum, the literal type covers every accepted value if and only if every admitted variant of a literal has the type of some literal |
| `ContractTypes.EnumMixup` | backend/app/contracts/json_schema.py:38-39 | the checker takes true for the enum literal 1 |
| `ContractTypes.LiteralIsItself` | scripts/generate_contract_artifacts.py:59-61 | a literal type without objects has the literal as its only value, whether its numbers are integers or floats |
| `ContractTypes.LiteralIsObject` | scripts/generate_contract_artifacts.py:59-61 | an object literal type has the values of the object type with its entries as fields |
| `ContractSoundness.MatchIff` | backend/app/contracts/json_schema.py:89-106 | a value matches a type through a term that admits everything or through the name of its kind, at any depth |
| `ContractSoundness.InhabitIff` | scripts/generate_contract_artifacts.py:62-83 | a value has the generated type of such a type through the same names, if its parts fit |
| `ContractSoundness.Sound` | scripts/generate_contract_artifacts.py:50-83 | every payload that satisfies a schema which does not overpromise inhabits its generated type |
| `ContractSoundness.AcceptedPayloadHasType` | backend/app/contracts/json_schema.py:26-106 | the same said of the checker's answer |
| `ContractSoundness.SoundIff` | scripts/generate_contract_artifacts.py:50-83 | the generated type covers every accepted payload if and only if no admitted variant of an enum literal is outside all its literal types and no objects or arrays are accepted whose parts lack the promised types |
| `ContractSoundness.NestedListMixup` | backend/app/contracts/json_schema.py:109-118 | a name inside a nested list does not trigger the object checks |
| `Calendar.AddDaysNumber` | backend/app/api/metrics.py:100-117 | adding days adds to the day number across month lengths, leap days and year ends |
| `MetricBuckets.StartMeans` | backend/app/api/metrics.py:100-108 | a bucket starts at the hour, at midnight, at midnight of the first of the month, or at midnight of the Monday at most six days before |
| `MetricBuckets.BuildBuckets` | backend/app/api/metrics.py:126-132 | the stepping loop terminates with the specified buckets, which `MetricBuckets.BucketsAreTruncations` and `MetricBuckets.StartMeans` describe |
| `MetricBuckets.NextSlot` | backend/app/api/metrics.py:111-123 | the bucket after a bucket start is the next bucket start |
| `MetricBuckets.BucketsIncrease` | backend/app/api/metrics.py:126-132 | the buckets are strictly increasing |
| `MetricBuckets.NoMomentLost` | backend/app/api/metrics.py:100-132 | the truncation of every moment of the range is a bucket |
| `MetricBuckets.BucketsAreTruncations` | backend/app/api/metrics.py:100-132 | the buckets of a range are exactly the truncations of its moments |
| `MetricBuckets.SeriesTotal` | backend/app/api/metrics.py:135-147 | the series adds up to a mapping whose keys are truncated moments of the range |
| `MetricBuckets.WipSeriesFromMapping` | backend/app/api/metrics.py:150-170 | one point per bucket with the counts of its mapping entry, missing counts being zero |
| `MetricBuckets.WipPointsByStatus` | backend/app/api/metrics.py:150-170 | each status of a point is the value of that status's mapping |
| `MetricBuckets.WipTotal` | backend/app/api/metrics.py:150-170 | for each status, the points add up to all counts of that status in the mapping, when its keys are truncated moments of the range |
| `CustomFields.FieldStore.CheckValues` | backend/app/api/tasks.py:1075-1135 | accepts exactly payloads that name known fields with null or accepted values; unknown keys are reported first |
| `CustomFields.FieldStore.SetForCreate` | backend/app/api/tasks.py:1157-1199 | accepted exactly when the payload is acceptable and no required field stays empty; stores given values, else defaults |
| `CustomFields.FieldStore.SetForUpdate` | backend/app/api/tasks.py:1202-1261 | accepted under the same condition on the effective values; replaces or deletes the rows of the given keys only |
| `CustomFields.FieldStore.ReadBack` | backend/app/api/tasks.py:1264-1308 | every asked task gets the stored value of each field, else its default |
| `CustomFields.CreatedReadsBack` | backend/app/api/tasks.py:1157-1199 | a given value reads back after creation; null or nothing reads back as the default |
| `CustomFields.UpdatedReadsBack` | backend/app/api/tasks.py:1202-1261 | an update changes read-back at the keys it names only, and null brings the default back |
| `CustomFields.OtherTasksReadBack` | backend/app/api/tasks.py:1157-1261 | setting the fields of one task changes nothing that is read back for another |
| `CustomFields.RequiredFieldsHaveValues` | backend/app/api/tasks.py:1092-1110 | after an accepted change every required field reads back as non-null |
| `PayloadPreview.PayloadPreviewWithLimit` | backend/app/api/agent.py:174-218 | the preview is the truncated full serialization with whether it exceeds the limit, for every split of the output, while keeping at most one character more than the limit |
| `PackSync.Collect` | backend/app/api/skills_marketplace.py:455-536 | the candidate map keeps one candidate per URL, the last one found |
| `PackSync.SkillTable.ApplyPackCandidateUpdates` | backend/app/api/skills_marketplace.py:932-956 | the skill carries the candidate's fields afterwards, and the answer says whether any differed |
| `PackSync.SkillTable.SyncSkillPack` | backend/app/api/skills_marketplace.py:1319-1348 | the upsert loop gives the specified rows and counts |
| `PackSync.SyncFollows` | backend/app/api/skills_marketplace.py:1319-1348 | after a sync each candidate URL has exactly one skill with its fields, other skills are untouched, URLs stay unique, counts are those of new and of outdated candidates |
| `PackSync.ResyncIsIdle` | backend/app/api/skills_marketplace.py:1319-1348 | syncing the same candidates again creates, updates and changes nothing |
| `Base64Url.PaddingRestored` | backend/app/core/agent_tokens.py:19-25 | the padding computed from the length is exactly what was stripped |
| `Base64Url.DecodeEncode` | backend/app/core/agent_tokens.py:19-25 | decoding gives back every byte string from its unpadded encoding |
| `Base64Url.AlphabetExact` | backend/app/core/agent_tokens.py:19-25 | each value is written by its character of the URL alphabet and read from its characters of the two alphabets, and from no other |
| `Base64Url.DecodesNumber` | backend/app/core/agent_tokens.py:23-25 | any text without padding is decoded if and only if the computed padding fills its last group, and then to the leading bits of the number its alphabet characters write |
| `AgentTokens.VerifyHash` | backend/app/core/agent_tokens.py:28-55 | a token verifies against the hash of another if and only if the key derivation gives both the same digest, for every salt |
| `AgentTokens.FourFields` | backend/app/core/agent_tokens.py:32-38 | splitting a stored hash gives back its four fields, since none can contain the separator |
| `AgentTokens.AcceptedIff` | backend/app/core/agent_tokens.py:35-55 | for every stored text, a token is accepted if and only if the text has the four fields of the scheme and the token derives its digest |
| `AgentTokens.RaisedIff` | backend/app/core/agent_tokens.py:35-55 | an error is raised if and only if a hash of the scheme has malformed base64 or no positive iteration count |
| `AgentTokens.ParseIntIff` | backend/app/core/agent_tokens.py:43-46 | an iteration count is read exactly from decimal figures, with single underscores between them, a sign and white space around |
| `Slugs.SlugIsWellFormed` | backend/app/api/silo_spawn_requests.py:33-36 | every display name gives a non-empty slug without dashes at the ends or in a row |
| `Slugs.SlugOfWords` | backend/app/api/silo_spawn_requests.py:33-36 | the slug of a name is its runs of letters and digits, lower-cased, in their order, with single dashes between them, or the default if there are none |
| `Slugs.NameHasWords` | backend/app/api/silo_spawn_requests.py:33-36 | every name has such runs |
| `Slugs.NumeralReads` | backend/app/api/silo_spawn_requests.py:145-157 | a numbered slug ends in the decimal notation of its number |
| `Slugs.FreeSlug` | backend/app/api/silo_spawn_requests.py:145-157 | the search ends for every finite set of taken slugs, with the base slug or the least free suffix |

## Left out

- Notifications, wake and heartbeat calls, gateway dispatch, error texts and logging: they do not change the modelled state; a refusal is its kind.
- Authentication, access rules of comments, tags, pagination, foreign keys and other tables: tag ids and field values enter a task request as well-formed or malformed.
- Task changes by execution-run workers, agent-created tasks and queue retries: these endpoints are not part of this model.
- Concurrency inside a request: each request is one atomic step, although an update commits more than once.
- The order of unordered queries: the board's first lead row is a parameter, dependents come in the order of their rows, and new ids are given by the request.
- `BoardHistory.RunLogOrdered`: log times are ticks of a logical clock, so two entries never share a time; with equal wall-clock times the order of the query can be open, `BoardHistory.ListingIff` says when.
- `JsonDecoder` gives numbers as their text and does not bound nesting; strings are sequences of code points.
- `StreamingJsonReader.StreamingJsonReader.ReadTopLevelEntries`: yields are collected at once, as its only caller does.
- `JsonChunking.ObjectSame`: covers smooth chunkings; `JsonObjectGaps.ObjectChunkingIff` covers all of them.
- `JsonCuts.ChunkingIrrelevant`: exact among smooth chunkings; `JsonObjectGaps.ChunkingIff` is exact among all of them.
- `JsonDocuments.ObjectDocumentRead`: exact among smooth chunkings; `JsonDocuments.DocumentReadIff` is exact among all of them.
- `BoardRecords.ResolveEffect`: the time stamp, confidence, payload and rubric of an approval are not modelled.
- `JsonWriting.DocumentRead`: strings are sequences of code points, so a text is decoded from characters, not from bytes.
- `RateLimiters.InMemoryRateLimiter.IsAllowed`: the maximum is at least 1, as at every use; with 0 the program would fail on an empty deque.
- `RateLimiters.RedisRateLimiter.IsAllowed`: Redis failures, where the program lets the call pass, are not modelled; times are real numbers and the server's clock is the caller's.
- `EventStream.DeliveredIff`: the queries are modelled by what they return; visibility rules and serialization of events are not.
- `ContractMeaning.ValidIff`: covers enums that are lists, numeric minimums and properties whose schemas are objects, and no NaN; error texts are reduced to kind and path.
- `ContractTypes.TsTypeExpr`: the generated type is its syntax tree, not its text; an object type, empty or not, is taken to contain JSON objects only, although TypeScript also finds members on strings, arrays and numbers.
- `ContractSoundness.SoundIff`: no key occurs twice among properties, as in any JSON object.
- `Calendar.AddDaysNumber`: years are unbounded, so the overflow past year 9999 is not modelled.
- `MetricBuckets.SeriesTotal`: values are real numbers; grouping by the database is taken to truncate as the program does.
- `CustomFields.FieldStore.CheckValues`: whether a definition accepts a non-null value is a parameter.
- `PayloadPreview.PayloadPreviewWithLimit`: values the encoder cannot serialize, and negative limits, are not modelled.
- `PackSync.SkillTable.SyncSkillPack`: rows are values in a table, so aliasing between loaded rows is not captured; time stamps, cloning and the parsing of index entries into candidates are left out.
- `AgentTokens.VerifyHash`: the key derivation is an arbitrary function of token, salt and iterations; iteration counts are read from ASCII digits.
- `Slugs.SlugIsWellFormed`: letters and lower-casing are parameters.
- Schedules, organization deletion, query wrappers, onboarding texts and the frontend: a schedule string is matched against one pattern and multiplied by the seconds of its unit, a deletion runs one delete per table in a fixed order, the wrappers pass clauses on to the database library, and the rest renders texts and what the API returns.
