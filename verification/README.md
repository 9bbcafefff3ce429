# Verification model of the chat back end

This project models, in Dafny 4.11, the parts of the back end whose correctness
rests on invariants over many calls, and proves those invariants.

- **Chat history** (`HistoryModel`, `ChatHistory`, `Forest`, `DeleteForest`,
  `UpsertForest`, `MergeForest`, `RepairForest`, `Runs`). A history is an
  insertion-ordered map of messages linked by `parentId` and by `childrenIds`,
  with a cursor `currentId`. `HistoryModel` gives each operation as a function on
  values; the class in `ChatHistory` performs it in place with the loops of the
  source and is proved equal to that function; the other files prove what the
  functions do. A child list may name ids that are not saved yet.
- **The mirrored table** (`Mirror`, `DualWrites`). One row per message without
  child lists, kept in step by dual writes and healed by reads.
- **File search** (`GlobLike`). Glob to LIKE translation, the LIKE matcher and its
  cache of compiled patterns.
- **Claims** (`Claims`). Due automations claimed by concurrent transactions.
- **Tasks** (`TaskRegistry`, `RedisTasks`). The registry of one process, and the
  one shared through Redis as interleaved steps of several instances.
- **Configuration** (`ConfigPaths`, `ConfigStore`, `ConfigTable`). Key splitting,
  nested assignment, and the startup pass.
- **Grants, channels, calendar** (`AccessGrants`, `Channels`, `Calendar`).

Where a promise does not hold of the code as it is, the exact condition is proved:

- A deletion can clear the cursor although messages remain, when the chain of last
  children runs into an id that is not saved yet (`DeleteCursorIsLeaf`,
  `PlaceholderLosesCursor`).
- An upsert keeps the forest exactly for well-behaved payloads (`UpsertForestIff`).
- The docstring of `claim_due` says a row can never be claimed twice. After an
  edit some run claims a row twice for the same time if and only if the edit
  leaves the row active with a time at or before one it was claimed for
  (`UpdateRepeatsIff`, `ToggleRepeatsIff`). The past claims are stored nowhere, but
  the row shows enough: an edit is safe if the row never ran or ends inactive, if
  its time is after the last run, or if it does not move an active row to an
  earlier time, and no weaker check on the row will do (`RowCheckSuffices`,
  `RowCheckNeeded`, `CheckedRunNeverRepeats`).
- Merging is associative on the messages, but the cursor can depend on the
  grouping; `MergeAssociativeIff` says when it does not.
- A cleanup unregisters its task in Redis for good if and only if the task has
  been saved when it executes; one that overtakes the save leaves the finished
  task behind (`CleanupFinalIff`, `QuiescentUnregisteredIff`, `CleanupOvertakes`).
- `stop_task` takes any id. A stop can leave a listed task unregistered if and only
  if its id is not saved yet and was not created without an item (`StopBreaksIff`).
- A second repair changes something exactly when the first one moved the cursor
  from a summary to a message without id or role and the newest leaf is another
  message (`RepairIdempotentIff`).
- The delete step of a Redis cleanup can remove a set that was refilled after it
  was counted (`DeleteKeepsConverseIff`, `GapLosesTask`).
- The legacy access dict loses write grants of public resources and everything of
  public files (`RoundTripKeepsAccessIff`).
- Splitting a flattened connection key undoes flattening if and only if no path
  segment holds a dot, the joined path is not empty, and: where the key's first
  segment is all digits, the key has no dot, so not for an IP address; for any
  other key, the key is not empty, a known field begins the path and none begins
  a later segment, so not for `headers.key` (`SplitUndoesFlattenIff`,
  `NestedFieldMisplaced`).
- The lookup of a direct-message channel is right for every set of users if and
  only if still-existing members and their rows are equally many
  (`LookupRightIff`).

Conventions. A missing or non-list `childrenIds` is the empty list, a missing or
empty role is `NoRole`, a missing timestamp is 0. Ids are strings and the empty
string is falsy where the source tests it. Clock readings, generated ids, query
answers whose order the database leaves open, `next_run_ns`, `str.lower` and
`str.strip` are parameters. Each method is one transaction; assigning a column
writes it. Redis pipelines are atomic.

## Model

| member | source | states |
|---|---|---|
| ChatHistories.LastDescendantId | backend/open_webui/models/chats.py:446-457 | the descent loop ends on every graph and returns the value of the recursive descent |
| ChatHistories.MergeHistory | backend/open_webui/models/chats.py:917-937 | building the merged dict message by message gives the merge the algebra below is about |
| ChatHistories.LinkMessages | backend/open_webui/models/chats.py:926-929 | one append per parent link gives every message the list of its children in dict order |
| ChatHistories.ChatHistory.AddChildIdToParent | backend/open_webui/models/chats.py:460-474 | appends the id once to a present parent, and answers True exactly when something changed |
| ChatHistories.ChatHistory.RepairChatCurrentId | backend/open_webui/models/chats.py:476-538 | performs the repair in place and answers True exactly when the history changed |
| ChatHistories.ChatHistory.LinkAll | backend/open_webui/models/chats.py:486-490 | the link loop reports a change exactly when some list grew |
| ChatHistories.ChatHistory.FindLatestLeaf | backend/open_webui/models/chats.py:522-532 | the scan over the dict finds the leaf that LatestLeafIsNewest describes |
| ChatHistories.ChatHistory.DeleteMessage | backend/open_webui/models/chats.py:940-979 | deletes in place, keeps the dict well formed and returns the deleted ids |
| ChatHistories.ChatHistory.CollectGrandchildren | backend/open_webui/models/chats.py:947-953 | collects the present children of the present children in order |
| ChatHistories.ChatHistory.Reparent | backend/open_webui/models/chats.py:955-961 | extends the new parent's list first and then moves the grandchildren |
| ChatHistories.ChatHistory.MoveCursor | backend/open_webui/models/chats.py:967-978 | the cursor walk terminates on every graph and sets the cursor that DeleteCursorIsLeaf describes |
| ChatHistories.ChatHistory.UpsertMessage | backend/open_webui/models/chats.py:982-1026 | inserts or updates in place, keeps the dict well formed and returns the saved message |
| ChatHistories.ChatHistory.BuildMessage | backend/open_webui/models/chats.py:991-1022 | fills in parent, role, id and timestamp of a new message |
| ChatHistories.ChatHistory.FindClaimant | backend/open_webui/models/chats.py:993-997 | finds the first message whose child list names the id |
| HistoryModel.FirstClaimant | backend/open_webui/models/chats.py:993-997 | the result is the first message in dict order whose list names the id; no result means nobody's does |
| HistoryModel.GrandchildrenAre | backend/open_webui/models/chats.py:947-953 | the collected ids are exactly the present ids listed by the given messages |
| Forests.NoCycle | backend/open_webui/models/chats.py:917-1026 | in a parent-closed ranked history no message is its own ancestor |
| Forests.HasRoot | backend/open_webui/models/chats.py:967-971 | every message of such a history hangs below a root |
| DeleteForest.DeletedExactly | backend/open_webui/models/chats.py:963-965 | the deleted ids are the message and its direct children |
| DeleteForest.AdoptedExactly | backend/open_webui/models/chats.py:948-953 | the adopted ids are exactly the grandchildren, each once |
| DeleteForest.AdoptedInOrder | backend/open_webui/models/chats.py:948-953 | they come in the order of the deleted message's list and, below one child, in the order of the child's list |
| DeleteForest.DeleteEffect | backend/open_webui/models/chats.py:940-965 | what a deletion removes, re-parents and appends, and that nothing else changes |
| DeleteForest.DeleteKeepsForest | backend/open_webui/models/chats.py:940-979 | a deletion keeps the forest and the order of the survivors, and one of an absent id changes nothing |
| DeleteForest.DeleteKeepsAncestors | backend/open_webui/models/chats.py:948-961 | for every two survivors the ancestor relation is the same before and after |
| DeleteForest.DeleteKeepsAlternation | backend/open_webui/models/chats.py:948-961 | user and assistant roles still alternate along parent links |
| DeleteForest.WalkEndsAtLeaf | backend/open_webui/models/chats.py:973-977 | on a forest the walk never meets a visited id and ends at a leaf below its start |
| DeleteForest.DeleteCursorIsLeaf | backend/open_webui/models/chats.py:967-978 | the cursor is a leaf at or below the old parent; it is None if and only if nothing remains or the walk's chain, read off the history before the call, names an absent id |
| DeleteForest.DeleteCursorPath | backend/open_webui/models/chats.py:967-978 | on any history the cursor ends a path that begins at the old parent or else at the last root in dict order, takes the last entry of each list afterwards, and cannot be continued |
| DeleteForest.CompleteCursor | backend/open_webui/models/chats.py:967-978 | without unsaved children the cursor is None exactly when nothing remains |
| DeleteForest.PlaceholderLosesCursor | backend/open_webui/models/chats.py:967-978 | a concrete forest on which the deletion clears the cursor while a message remains |
| UpsertForest.UpsertForestIff | backend/open_webui/models/chats.py:982-1026 | an upsert keeps the forest if and only if its payload meets a condition a caller can check before the call |
| UpsertForest.UpdateEffect | backend/open_webui/models/chats.py:985-989 | an update leaves the dict order, the cursor and the saved children alone and gives a parent to a root at most |
| UpsertForest.UpdatesCompose | backend/open_webui/models/chats.py:985-989 | two updates in a row are one update with the later payload on top of the earlier |
| UpsertForest.FullUpdateSaves | backend/open_webui/models/chats.py:985-989 | a payload that carries every field of a message leaves exactly that message, whatever was saved |
| UpsertForest.EmptyUpdate | backend/open_webui/models/chats.py:985-989 | an update that carries nothing changes nothing |
| UpsertForest.InsertionEffect | backend/open_webui/models/chats.py:991-1023 | a new message goes to the end of the dict, takes the cursor, always has id and role, and takes a claimant as parent and the counterpart of the parent's role if the payload gives none |
| UpsertForest.InsertionSaves | backend/open_webui/models/chats.py:991-1023 | a new message saves what its payload carries; a given role wins over an output's, and id and time fall back to the key and the present |
| UpsertForest.InsertionDefaults | backend/open_webui/models/chats.py:991-1023 | a new message has no content, summary, children or output that its payload does not carry |
| UpsertForest.OthersUnchanged | backend/open_webui/models/chats.py:1025-1026 | every other message keeps everything but the parent's list |
| UpsertForest.UpsertKeepsAlternation | backend/open_webui/models/chats.py:1005-1013 | a new message that takes its role from its parent keeps roles alternating |
| MergeForest.MergeRelinks | backend/open_webui/models/chats.py:917-937 | from any inputs the merged child lists are the exact inverse of the parent links, in dict order, and other fields come from the incoming copy if it has the message |
| MergeForest.MergeOrder | backend/open_webui/models/chats.py:921-924 | the merged dict begins with the stored ids in their order, followed by the ids only the incoming copy has in its order |
| MergeForest.MergeCursor | backend/open_webui/models/chats.py:931-935 | the incoming cursor wins if its message is there, then the stored one, and None is left only if neither is |
| MergeForest.MergeKeepsForest | backend/open_webui/models/chats.py:917-937 | two parent-closed acyclic histories merge into a forest however their ids overlap |
| MergeForest.MergeAbsorbs | backend/open_webui/models/chats.py:917-937 | merging the same stale copy twice changes nothing the second time |
| MergeForest.MergeIdempotent | backend/open_webui/models/chats.py:917-937 | a merged history merged with itself is unchanged |
| MergeForest.MergeAssociative | backend/open_webui/models/chats.py:917-937 | merging is associative on the message map, insertion order included |
| MergeForest.MergeAssociativeIff | backend/open_webui/models/chats.py:917-937 | the whole merge, cursor included, is associative if and only if the three cursors agree in a way that can be read off the three copies |
| MergeForest.MergeAssociativeWhole | backend/open_webui/models/chats.py:931-935 | so it is when each copy's cursor is among its own messages |
| MergeForest.CursorNotAssociative | backend/open_webui/models/chats.py:931-935 | three histories on which the cursor depends on the grouping |
| RepairForest.RepairAppendsMissing | backend/open_webui/models/chats.py:485-490 | on any graph each list is extended by exactly its missing children and nothing else changes |
| RepairForest.RepairCompletesLinks | backend/open_webui/models/chats.py:485-490 | afterwards every message with a present parent is in that parent's list |
| RepairForest.RepairOnlyLinks | backend/open_webui/models/chats.py:476-490 | on any history a repair keeps the order and every field but the child lists, which it only extends |
| RepairForest.RepairMakesForest | backend/open_webui/models/chats.py:485-490 | a forest with incomplete child lists becomes a forest |
| RepairForest.DescentReaches | backend/open_webui/models/chats.py:446-457 | on any graph, cycles included, the descent ends at a message reached through child lists |
| RepairForest.DescentTakesLast | backend/open_webui/models/chats.py:446-457 | on any graph the descent follows the last present entry of each list until there is none or it comes back to a message |
| RepairForest.DescentEndsAtLeaf | backend/open_webui/models/chats.py:446-457 | on a forest it ends at a leaf below its start |
| RepairForest.LatestLeafIsNewest | backend/open_webui/models/chats.py:520-532 | the scan returns the first of the newest leaves, or None if none has a timestamp of at least 0 |
| RepairForest.RepairKeepsForest | backend/open_webui/models/chats.py:476-538 | a repair of a forest touches the cursor only and leaves it on a present message |
| RepairForest.GoodCursorIff | backend/open_webui/models/chats.py:492-511 | which messages a cursor may stay on |
| RepairForest.RepairMovesCursor | backend/open_webui/models/chats.py:492-538 | where the cursor of a forest goes: it stays, or moves down the last entries from a summary to a leaf, or goes to the first of the newest leaves |
| RepairForest.RepairIdempotentIff | backend/open_webui/models/chats.py:476-538 | on forest-shaped histories a second repair changes something if and only if the first moves a good cursor from a summary to a message without id or role and the newest leaf is another one |
| RepairForest.RepairIdempotent | backend/open_webui/models/chats.py:476-538 | so it changes nothing when every message carries id and role |
| Runs.RunKeepsForest | backend/open_webui/models/chats.py:917-1026 | every run of upserts, deletes, merges and repairs keeps the forest |
| Runs.EveryRunIsForest | backend/open_webui/models/chats.py:917-1026 | from the empty history every run ends in a forest without cycles |
| Runs.RunExtends | backend/open_webui/models/chats.py:917-1026 | a run performs its operations one after the other |
| Runs.LostOnlyByDelete | backend/open_webui/models/chats.py:739-741 | a message that is gone was deleted by some step of the run, whatever stale copies were merged |
| Mirror.ChatMessageTable.UpsertMessage | backend/open_webui/models/chat_messages.py:270-292 | updates the fields of an existing row or adds one |
| Mirror.ChatMessageTable.Backfill | backend/open_webui/models/chats.py:1028-1040 | writes exactly the messages that carry a role |
| Mirror.ChatMessageTable.DeleteMessageIds | backend/open_webui/models/chat_messages.py:501-517 | removes exactly the given rows |
| Mirror.ChatMessageTable.GetMessagesMap | backend/open_webui/models/chat_messages.py:361-422 | rebuilds the message map, or None without rows |
| Mirror.RebuiltReadsRows | backend/open_webui/models/chat_messages.py:380-422 | each row reads as its message, stamped with the row's creation, and lists the rows naming it as parent in the order they come |
| Mirror.MirrorView | backend/open_webui/models/chat_messages.py:380-422 | the rebuilt map has the ids, parents, roles and contents of the JSON history, and its children in the order of the rows |
| Mirror.DualStepKeepsMirror | backend/open_webui/models/chats.py:1141-1239 | each dual write keeps the rows in step |
| Mirror.DualStepHistory | backend/open_webui/models/chats.py:1141-1239 | the history after a dual write is the one the plain upsert or deletion gives after the cursor repair |
| Mirror.WriteRows | backend/open_webui/models/chats.py:1141-1195 | a dual upsert shows the saved message in its row, with the message's time if the row is new, and leaves the other rows alone |
| Mirror.BackfilledRows | backend/open_webui/models/chats.py:1028-1040 | a backfill shows every message with a role in its row and touches no other row |
| Mirror.DualStepKeepsCreation | backend/open_webui/models/chat_messages.py:210-268 | a row keeps the time it was created with |
| Mirror.NewChatInStep | backend/open_webui/models/chats.py:1141-1239 | a chat without messages is in step, so such runs can begin there |
| Mirror.EveryDualRunMirrors | backend/open_webui/models/chats.py:1141-1239 | after any run of dual-written upserts and deletes, from any chat in step, the rebuilt map shows the ids, parents, roles and child sets of the JSON history |
| Mirror.MissingFound | backend/open_webui/models/chats.py:904-914 | unresolved parents are exactly the gaps, and the JSON copy has them all |
| Mirror.ReadHeals | backend/open_webui/models/chats.py:1053-1104 | a read returns the rows' messages and, as the JSON copy has them, the parents the rows miss; it writes exactly those, drops nothing, and returns a connected map or strictly grows the rows |
| Mirror.ReadsConverge | backend/open_webui/models/chats.py:1053-1104 | as many reads as rows are missing leave a connected table |
| Mirror.HealingConverges | backend/open_webui/models/chats.py:1053-1104 | the read after those returns a map with no unresolved parent |
| DualWrites.UpsertMessageToChat | backend/open_webui/models/chats.py:1141-1195 | repairs, upserts and writes the saved message's row |
| DualWrites.DeleteMessageFromChat | backend/open_webui/models/chats.py:1197-1239 | repairs, deletes, rewrites the remaining rows and drops the deleted ones |
| DualWrites.GetMessagesMap | backend/open_webui/models/chats.py:1053-1104 | reads through the rows, fills gaps from the JSON copy and writes them back |
| GlobLike.SequentialIsPerChar | backend/open_webui/models/files.py:289-295 | the five successive replaces are one translation per character |
| GlobLike.TranslatedCompiles | backend/open_webui/internal/db.py:340-350 | a translated pattern never ends in a lone escape and compiles to the glob's own pieces |
| GlobLike.MalformedIff | backend/open_webui/internal/db.py:340-354 | a pattern is malformed exactly when it ends in an odd run of escapes |
| GlobLike.GlobLikeAgree | backend/open_webui/internal/db.py:328-360 | LIKE accepts a name against the translated pattern if and only if the glob matches it up to case |
| GlobLike.LikeMeaning | backend/open_webui/internal/db.py:328-360 | on every pattern, value and escape the function answers what LIKE means by its definition, NULL included |
| GlobLike.SearchMatchesGlob | backend/open_webui/models/files.py:324-326 | a search selects exactly the names the glob matches, the unfiltered "%" included |
| GlobLike.CompilePattern | backend/open_webui/internal/db.py:340-355 | the escape state machine computes the compiled pattern or the malformed mark |
| GlobLike.LikeFunction.Call | backend/open_webui/internal/db.py:328-360 | the cached function returns what the uncached one would and the cache stays consistent and within 512 entries |
| GlobLike.LikeFunction.Remember | backend/open_webui/internal/db.py:350-358 | a full cache is cleared before an entry is added |
| Claims.AutomationTable.ClaimDue | backend/open_webui/models/automations.py:299-332 | stamps and reschedules exactly the selected rows |
| Claims.AutomationTable.Toggle | backend/open_webui/models/automations.py:264-278 | flips the row and clears its time when it becomes inactive |
| Claims.AutomationTable.UpdateById | backend/open_webui/models/automations.py:225-245 | writes the given time and, if given, the activity |
| Claims.Toggled | backend/open_webui/models/automations.py:264-278 | a toggled row changes activity, gets the time when it becomes active and is never due otherwise; no other row changes |
| Claims.Updated | backend/open_webui/models/automations.py:225-245 | an update changes time and activity of its row and nothing else |
| Claims.CommitKeepsConsistent | backend/open_webui/models/automations.py:326-330 | a commit moves every claimed row past the time it was claimed for |
| Claims.NoDoubleClaim | backend/open_webui/models/automations.py:289-332 | no set of interleaved workers claims an automation twice for the same time, and open claims are disjoint |
| Claims.RollbackReleases | backend/open_webui/models/automations.py:308-309 | a claim that is rolled back leaves no trace and frees its rows |
| Claims.StaleRepeats | backend/open_webui/models/automations.py:299-332 | from a row due again at or before a claimed time a run claims a pair twice, at once or after one claim in between |
| Claims.UpdateRepeatsIff | backend/open_webui/models/automations.py:225-245 | after an update some run claims a pair twice if and only if the row ends active with a time at or before a claimed one |
| Claims.ToggleRepeatsIff | backend/open_webui/models/automations.py:264-278 | the same of a toggle that activates the row |
| Claims.RowCheckSuffices | backend/open_webui/models/automations.py:225-278 | an edit that passes a check on the row's own fields, such as a time after its last run, opens no way to a double claim |
| Claims.RowCheckNeeded | backend/open_webui/models/automations.py:225-278 | for every edit that fails it there is a run from an empty log to that very row after which the edit does |
| Claims.CheckedRunNeverRepeats | backend/open_webui/models/automations.py:225-332 | no run whose edits pass the check claims a pair twice |
| Claims.ClaimShrinksDue | backend/open_webui/models/automations.py:299-332 | a claim takes min(limit, n) of n due rows, stamps and reschedules them, makes none due and touches no other row |
| Claims.DrainCount | backend/open_webui/models/automations.py:299-332 | after k claims at a fixed time n due rows are down to n - k * limit |
| Claims.DrainedAfterCeiling | backend/open_webui/models/automations.py:299-332 | the due rows are gone if and only if ceil(n / limit) claims were made |
| Claims.DrainInOrder | backend/open_webui/models/automations.py:305-306 | successive claims serve rows in the order they were due, each once |
| Claims.SelectionExists | backend/open_webui/models/automations.py:299-309 | the selection is always possible |
| TaskRegistries.TaskRegistry.CreateTask | backend/open_webui/tasks.py:131-152 | registers the task and appends it to its item's list |
| TaskRegistries.TaskRegistry.CleanupTask | backend/open_webui/tasks.py:114-128 | removes the task and its list entry, and an emptied list with its key |
| TaskRegistries.TaskRegistry.StopTask | backend/open_webui/tasks.py:254-257 | takes the task out and reports whether it was there |
| TaskRegistries.CleanupsCommute | backend/open_webui/tasks.py:114-128 | cleanups from any callers commute |
| TaskRegistries.CleanupIdempotent | backend/open_webui/tasks.py:114-128 | a repeated cleanup changes nothing |
| TaskRegistries.ListsInOrder | backend/open_webui/tasks.py:114-152 | in every run the list of an item names, in the order of creation, the tasks created for it and not cleaned up |
| TaskRegistries.ListedIff | backend/open_webui/tasks.py:114-152 | in every run a task is listed for an item if and only if it was created for it and not cleaned up; a stop alone does not unlist it |
| TaskRegistries.RunningIff | backend/open_webui/tasks.py:114-152 | a task runs from its creation to its cleanup or stop |
| TaskRegistries.EveryRunListsOnce | backend/open_webui/tasks.py:114-152 | in every run each running task is listed exactly once, under its own item |
| RedisTasks.EventKeepsInvariant | backend/open_webui/tasks.py:74-93 | every await-to-await step keeps the registry invariant |
| RedisTasks.ListedIsRegistered | backend/open_webui/tasks.py:74-93 | under any interleaving a member of an item's set is in the hash under that item |
| RedisTasks.StopBreaksIff | backend/open_webui/tasks.py:232-250 | after a stop of any id some run leaves a listed task unregistered if and only if the id is not saved yet and was not created without an item |
| RedisTasks.CleanupFinalIff | backend/open_webui/tasks.py:80-93 | a cleanup keeps its task out of the hash in every continuation if and only if the task is saved when it executes |
| RedisTasks.QuiescentUnregisteredIff | backend/open_webui/tasks.py:74-152 | with no coroutine pending a task has left the registry if and only if its save executed before one of its cleanups |
| RedisTasks.CleanupOvertakes | backend/open_webui/tasks.py:131-152 | a run in which the cleanup overtakes the save and the finished task stays registered |
| RedisTasks.ConverseKept | backend/open_webui/tasks.py:74-93 | every step but the delete keeps registered tasks listed |
| RedisTasks.DeleteKeepsConverseIff | backend/open_webui/tasks.py:88-91 | the delete keeps them listed if and only if the set is empty when it executes |
| RedisTasks.RegisteredIsListed | backend/open_webui/tasks.py:74-93 | in every run whose deletes fall on empty sets each registered task is listed for its item |
| RedisTasks.LossOnlyInGap | backend/open_webui/tasks.py:88-91 | a task that stays registered loses its listing only to the delete of a cleanup that counted an empty set before the task was saved |
| RedisTasks.GapLosesTask | backend/open_webui/tasks.py:88-91 | a run of eight steps in which a registered task ends up unlisted |
| ConfigPaths.LookupAssigned | backend/open_webui/models/config.py:83-91 | an assigned value is found at its path |
| ConfigPaths.LookupElsewhere | backend/open_webui/models/config.py:83-91 | an assignment is not seen at paths that are no prefix of its own nor extend it |
| ConfigPaths.SplitApiConfigFragment | backend/open_webui/models/config.py:58-80 | the split is the digit key and its path, or the text around the last field marker |
| ConfigPaths.SplitsUnique | backend/open_webui/models/config.py:58-80 | that determines the result |
| ConfigPaths.DigitsAre | backend/open_webui/models/config.py:63 | a key is all digits when it is not empty and holds only 0 to 9 |
| ConfigPaths.DigitKeysSplit | backend/open_webui/models/config.py:62-64 | splitting undoes flattening for keys that are all digits |
| ConfigPaths.SplitUndoesFlattenIff | backend/open_webui/models/config.py:58-80 | for every key and path the split gives them back if and only if no segment holds a dot and either the key is digits without a dot and the joined path is not empty, or the key does not begin with an all-digit segment, is not empty and the path begins with a known field that begins no later segment |
| ConfigPaths.NestedFieldMisplaced | backend/open_webui/models/config.py:66-80 | a nested value named like a field is assigned to the wrong connection |
| ConfigPaths.FieldSplitsIff | backend/open_webui/models/config.py:66-80 | for a key and a single known field it does so if and only if the key is not dotted with an all-digit first segment |
| ConfigStore.GetManyAgrees | backend/open_webui/models/config.py:141-167 | reading many keys at once agrees with reading each |
| ConfigStore.GetReads | backend/open_webui/models/config.py:141-152 | a key reads its row when configuration, and for OAuth keys that of OAuth, is stored, and its default otherwise |
| ConfigStore.RenamedReads | backend/open_webui/models/config.py:269-300 | a moved value is found under its new key unless a row was there, and other keys read as before |
| ConfigStore.RenamedSuffix | backend/open_webui/models/config.py:284 | the rename replaces the prefix and keeps what follows it |
| ConfigStore.RenamedOnly | backend/open_webui/models/config.py:269-300 | it makes up no row |
| ConfigStore.SeedingKeepsReads | backend/open_webui/models/config.py:241-266 | seeding adds exactly the enabled defaults that have no row, keeps every row and changes no read |
| ConfigStore.FamiliesSettle | backend/open_webui/models/config.py:314-359 | after the repair every flattened row left over is one the repair always skips, and families do not disturb one another |
| ConfigStore.FlattenedPath | backend/open_webui/models/config.py:329-345 | a row flattened from a path under either prefix of a family leads back to the path |
| ConfigStore.FlattenedConnectionPath | backend/open_webui/models/config.py:329-345 | so does the row of a connection whose key splits back |
| ConfigStore.AbsorbedAt | backend/open_webui/models/config.py:329-355 | where paths meet the later row wins: a value is found if no later one met its path |
| ConfigStore.AbsorbedInOrder | backend/open_webui/models/config.py:329-355 | the rows are absorbed in the order of the query's answer, each once |
| ConfigStore.AbsorbedFound | backend/open_webui/models/config.py:329-355 | in one family's step each absorbed row's value is found at its path when no path is a prefix of another |
| ConfigStore.StartupFindsAbsorbed | backend/open_webui/config.py:41-44 | after the whole pass the value of each absorbed row is found at its path and the row is gone, when no path is a prefix of another |
| ConfigStore.StartupKeepsNested | backend/open_webui/config.py:41-44 | a nested value at a path apart from every absorbed one survives the whole pass |
| ConfigStore.StartupKeepsDict | backend/open_webui/config.py:41-44 | a family that absorbs nothing keeps its row and gets none but a default |
| ConfigStore.StartupKeepsRow | backend/open_webui/config.py:41-44 | every other row keeps its value, except that lists of models become joined texts; without stored configuration the pass does nothing |
| ConfigStore.StartupAddsOnly | backend/open_webui/config.py:41-44 | every row the pass adds is a renamed one, a family's dict or a default |
| ConfigStore.JoinAppend | backend/open_webui/models/config.py:361-378 | a joined list has commas between its non-empty items only |
| ConfigStore.JoinOne | backend/open_webui/models/config.py:361-378 | a single item is stripped |
| ConfigStore.FamiliesProper | backend/open_webui/models/config.py:23-40 | no dict key of the table looks like a flattened row of any family |
| ConfigStore.StartupFixedPoint | backend/open_webui/config.py:41-44 | a second startup pass (rename, repair, seed) changes nothing, in whatever order the queries answer |
| ConfigTables.ConfigTable.RenamePrefix | backend/open_webui/models/config.py:269-300 | moving the rows one by one gives the renamed table |
| ConfigTables.ConfigTable.RepairConfigRows | backend/open_webui/models/config.py:303-382 | the nested loops give the repaired table |
| ConfigTables.ConfigTable.RepairFamily | backend/open_webui/models/config.py:314-359 | absorbs the rows of one family into its dict |
| ConfigTables.ConfigTable.SeedDefaults | backend/open_webui/models/config.py:241-266 | adds exactly the enabled defaults that are missing |
| AccessGrants.BatchIsPointwise | backend/open_webui/models/access_grants.py:622-676 | the batch check returns the ids that pass the point check |
| AccessGrants.ListingsAgree | backend/open_webui/models/access_grants.py:723-935 | the filter is ownership or the point check; read-only and write listings split everything visible into disjoint parts |
| AccessGrants.ListingsWithoutUser | backend/open_webui/models/access_grants.py:723-935 | without a user the filter keeps what every user of the groups may access, and everything without groups |
| AccessGrants.UsersWithAccess | backend/open_webui/models/access_grants.py:678-721 | collects the reached accounts, or all that are not pending when public |
| AccessGrants.UsersAgree | backend/open_webui/models/access_grants.py:678-721 | the listed users are the existing accounts that pass the point check, less the pending ones when public |
| AccessGrants.ToAccessControl | backend/open_webui/models/access_grants.py:276-318 | the loop collects each listed name once, in the order of first grants, and detects the public and the empty list |
| AccessGrants.RoundTripKeepsAccessIff | backend/open_webui/models/access_grants.py:83-147 | converting to the legacy dict and back keeps every user's access if and only if the list is not public, or is public on a non-file without write grants |
| Channels.ChannelMembers.CreateMemberships | backend/open_webui/models/channels.py:297-331 | one row per new user, and still one row per channel and user |
| Channels.ChannelMembers.AddMembers | backend/open_webui/models/channels.py:468-492 | adds exactly the requested users who have no row |
| Channels.ChannelMembers.RemoveMembers | backend/open_webui/models/channels.py:494-508 | removes exactly the given users of the channel |
| Channels.ChannelMembers.Join | backend/open_webui/models/channels.py:528-564 | a member joins once |
| Channels.ChannelMembers.Leave | backend/open_webui/models/channels.py:566-584 | keeps the row and marks it inactive |
| Channels.FoundIff | backend/open_webui/models/channels.py:432-466 | with one row per user the two counts hold exactly when the still-existing members are the requested users |
| Channels.LookupRightIff | backend/open_webui/models/channels.py:432-466 | the two counts are right for every requested set if and only if still-existing members and joined rows are equally many |
| CalendarRules.EventAttendees.SetAttendees | backend/open_webui/models/calendar.py:802-839 | replaces the list, keeping known statuses and starting others as pending; a list that names a user twice violates the unique constraint and changes nothing |
| CalendarRules.EventAttendees.UpdateRsvp | backend/open_webui/models/calendar.py:841-858 | changes the status of the user's first row, if any |
| CalendarRules.StatusIsLastAnswer | backend/open_webui/models/calendar.py:802-858 | in every run an attendee's status is the last answer the attendee gave since being continuously listed, or pending if there is none |
| CalendarRules.CalendarTable.GetOrCreateDefaults | backend/open_webui/models/calendar.py:284-307 | creates a default exactly for a user without calendars |
| CalendarRules.CalendarTable.SetDefaultCalendar | backend/open_webui/models/calendar.py:390-409 | the user's only default is the given calendar, or nothing changes |
| CalendarRules.CalendarTable.DeleteCalendarById | backend/open_webui/models/calendar.py:411-437 | never removes a default |
| CalendarRules.GetUpcomingEvents | backend/open_webui/models/calendar.py:732-788 | returns the reported events in row order |
| CalendarRules.ReportedIff | backend/open_webui/models/calendar.py:741-788 | an event is reported from its own minutes ahead, capped by the larger of an hour and the default, until the grace after its start |
| CalendarRules.FirstReport | backend/open_webui/models/calendar.py:741-788 | with polls at most the grace apart the first poll inside that time reports the event and none before does |
| CalendarRules.NoAlertMissed | backend/open_webui/models/calendar.py:741-788 | with polls at most the grace apart every live event with alerts enabled is reported by the first poll at or after its start, if not before |

## Left out

- History entries that are not objects: the source skips them in some places and fails on them in others; every entry is a message here.
- The two spellings of the context-summary key are one flag, and all message fields not named in `Message` are one `content`.
- Row writes that fail: the dual writes are best effort; the model writes them, and the self-healing reads cover the rest.
- Row ids shared by two chats: one chat's rows are modelled, keyed by message id.
- Mirror.MirrorView: does not compare timestamps, because a row keeps the time of its creation while an update may change the JSON copy.
- Nested configuration dicts are values: updating them in place and SQLAlchemy's change detection are not captured.
- Configuration keys match prefixes exactly: the case folding and the `_` wildcard of the LIKE queries are not part of this model.
- `isdigit` is limited to the ASCII digits.
- Case folding is per character: lower-casing that changes the length of a string is not part of this model.
- Files without a name in the database.
- SQLite's unlocked claims: the PostgreSQL path with row locks is modelled; edits wait for the locks.
- Recurrence rules: the next run is any time after the claim, or none.
- The in-memory loop that stops all tasks of an item while cleanups shrink the list it iterates, and the clean-up of tasks without an item.
- Response streams and the publish/subscribe stop command: they carry no registry state.
- Redis Cluster, where a pipeline is not atomic.
- `normalize_access_grants`, grant and revoke: single-row writes and a filter that no property above depends on.
- Two requests that add the same channel member at once: each method is one transaction, and the table has no unique constraint.
- `get_namespace`, `get_all`, `upsert` and `clear` of the configuration: filtered reads and single-row writes outside the startup pass.
- Event editing and recurring events of the calendar: field assignments, and recurrence rules, which are a parameter here.
- Mirror.ChatMessageTable.UpsertMessage: the source keeps a column whose key the payload lacks; the model writes parent, role and content always, because the dual writes pass the whole saved message. A message that lost its role is the one case in which the two differ, and the mirror results exclude it.
- HistoryModel.GrandchildrenAre: states which ids are collected; that none repeats is `AdoptedExactly`, their order is `AdoptedInOrder`.
- ConfigTables.ConfigTable.RenamePrefix: a new prefix that lies below the old one is excluded, because the outcome would then depend on the order of the query's answer; the one caller passes `rag.web` and `web`.
- ConfigStore.RenamedReads: excludes such a prefix for the same reason.
- CalendarRules.GetUpcomingEvents: alert minutes are exact reals; a float that is not a number, which is never reported, and rounding at the scale of nanoseconds are not part of this model.
- CalendarRules.CalendarTable.DeleteCalendarById: the deletion of the calendar's events, attendees and grants is not part of the model.
- Chat search, list queries, usage statistics, routes, authentication and streaming.
