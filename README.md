# dcos tail: a Dafny model

This project models the core of the `dcos tail` command. The command prints
the last lines of a file in a Mesos task's sandbox and can then follow the
file as it grows. The model has two parts.

- **The cluster topology** (`dcos/mesos.py`) covers several things:
  - the master's `state.json` document and each agent's `state.json`;
  - the memoised object graph built over those documents: `MesosMaster`,
    `MesosSlave`, `Framework` and `Task`;
  - the `_merge` helper;
  - the remote file object `MesosFile`, which reads a sandbox file through
    the agent's paginated `files/read.json` endpoint.
- **The tail command** (`cli/dcoscli/tail/main.py`) covers:
  - reading the last N lines through a widening window;
  - reading the rest of a file;
  - stripping one trailing newline;
  - printing lines grouped under headers;
  - streaming a pass over several files and dropping the files that fail;
  - probing the agents;
  - choosing the files to read;
  - the follow loop.

HTTP is replaced by data:

- A `MesosMaster` holds the state document that its endpoint would answer.
  It also holds the documents that each agent would answer; an agent with
  no document is unreachable.
- A file's endpoint is a `FileEndpoint` object. It holds the file's current
  content and the server's page limit. The task can append to that content.
- The reply to one request is the pure function `RemoteFile.Serve`.
- Every round trip is logged in the ghost field `MesosFile.exchanges`. The
  contracts can then say exactly which requests a read sends.

The thread pool is replaced by an argument: a pass is given as the order in
which its jobs complete (a permutation of the jobs) and each job's outcome.
Printing is modelled as the sequence of items published (`TailEngine.Emit`).

The modules are:

- `Util`: Option and Result, Python's substring test, `list.remove`, and
  Python's negative-index slice.
- `Lines`: `split('\n')`, `'\n'.join`, `_strip_trailing_newline`, and the
  lines `_read_rest` returns.
- `RemoteFile`: the endpoint and `MesosFile`.
- `TailRead`: `_read_last_lines` and `_read_rest` over a `MesosFile`.
- `Topology`: the state documents, `_merge`, the object graph and its
  queries.
- `TailEngine`: `_output`, `_stream_files`, `_load_slaves_state`,
  `_mesos_files` and `_tail`.

Where the code cannot run as written, the model follows what its callers
evidently intend:

- `MesosMaster.tasks` reads a name `active_only` that it never defines.
  `_mesos_files` calls it with a keyword `active_only`, which the signature
  does not accept, so the call raises `TypeError`. The model gives
  `Tasks` an explicit `inactive` flag, the meaning both callers evidently
  intend. `FindTask`, which models `MesosMaster.task`, passes
  `inactive = false`: `task` calls `tasks` with its defaults.
- `MesosMaster.framework` passes `active_only=False` to `_framework_dicts`,
  whose parameter is named `inactive`. The model reads this as "include
  inactive frameworks" (`inactive = true`).
- With `completed=True`, `tasks` merges only the `completed_tasks` list. It
  does not add that list to the active tasks. `TaskKeys` models exactly
  this.

## Model

| member | source | states |
|---|---|---|
| Util.IsSubstringAt | dcos/mesos.py:170 | Python's `fltr in id` holds exactly when `fltr` occurs at some position of `id` |
| Util.EmptyIsSubstring | dcos/mesos.py:159 | the default empty filter matches every id |
| Util.IndexOf | cli/dcoscli/tail/main.py:209 | the position `list.remove` deletes at: an occurrence of the element with none before it |
| Util.RemoveFirst | cli/dcoscli/tail/main.py:209 | `list.remove` on a present element: the list is one element shorter |
| Util.RemoveFirstCount | cli/dcoscli/tail/main.py:209 | `list.remove` takes exactly one occurrence of the element out of the multiset of the list |
| Util.PySliceFromLast | cli/dcoscli/tail/main.py:291 | `lines[-n:]` with `1 <= n <= len(lines)` is the last `n` lines; with `n == 0` it is the whole list |
| Lines.JoinSplit | cli/dcoscli/tail/main.py:289 | joining the pieces of `split('\n')` with newlines gives the original string back |
| Lines.Split | cli/dcoscli/tail/main.py:289 | `str.split('\n')` always gives at least one piece, an empty one for the empty string (the lemmas below state the rest) |
| Lines.SplitNoNewlines | cli/dcoscli/tail/main.py:289 | no piece of a split holds a newline |
| Lines.SplitJoin | cli/dcoscli/tail/main.py:289 | splitting the newline-join of a non-empty list of newline-free lines gives that list back |
| Lines.SplitAppend | cli/dcoscli/tail/main.py:285-289 | splitting a concatenation fuses the last piece of the first part with the first piece of the second and keeps every other piece; this is why the widening reader prepends data |
| Lines.FuseSuffix | cli/dcoscli/tail/main.py:285-291 | text put before a string leaves every line of it after the first untouched |
| Lines.StripTrailingNewline | cli/dcoscli/tail/main.py:321-334 | the result is a prefix of the string at most one character shorter: the empty string is kept, one final newline is dropped, any other string is kept |
| Lines.StripAppend | cli/dcoscli/tail/main.py:285-288 | stripping only looks at the end: text put before a non-empty string survives the strip unchanged |
| Lines.RestLines | cli/dcoscli/tail/main.py:313-318 | no lines exactly when no data was read; otherwise newline-free lines whose join is the data without its final newline |
| RemoteFile.Serve | dcos/mesos.py:501-530 | the reply to a request: offset -1 or at or past the end reports the size and no data; data is a contiguous slice of the content at the offset, no longer than asked or than a page, and non-empty whenever the offset is inside the file and data is asked for |
| RemoteFile.Remaining | dcos/mesos.py:577-594 | the content from a cursor inside the file; nothing from a cursor outside it |
| RemoteFile.ReadSpec | dcos/mesos.py:577-594 | what `read(length)` returns: a prefix of the rest of the file, all of it for no length, exactly `min(length, rest)` for a non-negative length |
| RemoteFile.ReadThenRest | dcos/mesos.py:577-594 | reading `n` bytes and then the rest gives the same data as reading the rest at once |
| RemoteFile.ReadAfterAppend | dcos/mesos.py:577-594 | at the end of the file the rest is empty; after the task appends, it is exactly what was appended |
| RemoteFile.HostPath | dcos/mesos.py:596-607 | the directory and the path joined by exactly one '/'; an empty directory fails |
| RemoteFile.Header | dcos/mesos.py:664-671 | the header is the task id, ':', then the path |
| RemoteFile.HeaderInjective | dcos/mesos.py:664-671 | when task ids hold no ':', two files with the same header have the same task id and path |
| RemoteFile.ReceivedSnoc | dcos/mesos.py:586-592 | the data received over a run of replies grows by the data of each new reply |
| RemoteFile.ChunkParams | dcos/mesos.py:587-589 | the chunk request after `got` bytes names the host path, the offset `got` past the starting cursor, and the length still wanted, or -1 for no length |
| RemoteFile.ChunkRequestsSnoc | dcos/mesos.py:587-589 | a run of correctly formed chunk requests stays correctly formed when one more is added |
| RemoteFile.ReadComplete | dcos/mesos.py:587-591 | when the loop stops, because the length is used up or the cursor is outside the file, the data read is `ReadSpec` |
| RemoteFile.ReadStep | dcos/mesos.py:587-592 | one round of `read`'s loop keeps the invariant (the data is the right prefix, it is what the replies carried, and the requests ask for the remaining length at the cursor); an empty chunk means the read is complete |
| RemoteFile.FileEndpoint.constructor | dcos/mesos.py:501-530 | the endpoint holds the given content and page limit |
| RemoteFile.FileEndpoint.Append | dcos/mesos.py:501-530 | the task appends to the file; the content grows by exactly that text |
| RemoteFile.MesosFile.constructor | dcos/mesos.py:532-535 | a new file has its task, path and directory, its cursor at 0, and has sent no request |
| RemoteFile.MesosFile.ParamsFor | dcos/mesos.py:609-629 | the request names the host path, the given offset or else the cursor, and the length |
| RemoteFile.MesosFile.Fetch | dcos/mesos.py:651-662 | one round trip: the reply is the endpoint's answer, logged as one exchange |
| RemoteFile.MesosFile.Size | dcos/mesos.py:537-545 | the size is the content's length, learnt through one request with offset -1 and length 0; the cursor does not move |
| RemoteFile.MesosFile.Seek | dcos/mesos.py:547-566 | SEEK_SET sets the cursor, SEEK_CUR moves it, SEEK_END sets it relative to the size and costs one size request; any other `whence` changes nothing |
| RemoteFile.MesosFile.Tell | dcos/mesos.py:568-575 | returns the cursor |
| RemoteFile.MesosFile.FetchChunk | dcos/mesos.py:631-649 | one request at the given offset or the cursor; the cursor ends just after the data returned |
| RemoteFile.MesosFile.ReadChunk | dcos/mesos.py:587-592 | one iteration of `read`'s loop: the cursor advances by the chunk, the loop invariant is kept, and an empty chunk means the data is complete |
| RemoteFile.MesosFile.Read | dcos/mesos.py:577-594 | returns `ReadSpec` at the old cursor and advances the cursor by what it returns; the data is what the replies carried; every request asks for the remaining length at the cursor; a non-positive length sends no request |
| TailRead.ReadLastLines | cli/dcoscli/tail/main.py:262-302 | with the window recomputed as written, the read returns exactly when the first window already answers; the answer is `LastLinesResult`; the cursor ends at the end of the file |
| TailRead.WindowPass | cli/dcoscli/tail/main.py:283-284 | one pass reads `ReadSpec` of the window and leaves the cursor after it; with `end == start`, as every pass after the first has it once the window is recomputed (cli/dcoscli/tail/main.py:298-299), it reads nothing, sends no request and leaves the cursor at `start` |
| TailRead.LongLineDiverges | cli/dcoscli/tail/main.py:282-299 | a file with no newline longer than the first window never ends the loop |
| TailRead.OneLongLineDiverges | cli/dcoscli/tail/main.py:282-299 | one line of 201 characters with `lines=1` never ends the loop |
| TailRead.WindowTail | cli/dcoscli/tail/main.py:288-291 | when a window ending at the end of the file has more than `n` lines, its last `n` lines are the file's last `n` lines |
| TailRead.SuffixTail | cli/dcoscli/tail/main.py:288-291 | the last `n` lines of any suffix with more than `n` lines are the last `n` lines of the whole |
| TailRead.LastLinesCorrect | cli/dcoscli/tail/main.py:262-302 | whenever the read returns and `n >= 1`, it returns the last `n` lines of the file |
| TailRead.SmallFileTerminates | cli/dcoscli/tail/main.py:279-295 | a file no larger than `200 * n` is read in one window, and the read returns its last `n` lines |
| TailRead.NonPositiveCount | cli/dcoscli/tail/main.py:277-291 | `lines=0` returns one empty line; a negative count returns nothing |
| TailRead.EmptyFileLines | cli/dcoscli/tail/main.py:288-295 | an empty file gives one empty line |
| TailRead.FourLineExamples | cli/dcoscli/tail/main.py:262-302 | the last 2 lines of "a\nb\nc\nd\n" are c and d; asking for 10 gives all four |
| TailRead.SplitFourLines | cli/dcoscli/tail/main.py:289 | "a\nb\nc\nd" splits into its four lines |
| TailRead.ReadLastLinesWidening | cli/dcoscli/tail/main.py:262-302 | the corrected reader, which widens the window each round: it always returns, gives the file's last `n` lines for `n >= 1` and the source's answer otherwise, and leaves the cursor at the end |
| TailRead.WidenedAnswer | cli/dcoscli/tail/main.py:288-295 | each way the widening loop can stop gives the last `n` lines of the file |
| TailRead.ReadRest | cli/dcoscli/tail/main.py:305-318 | the lines of everything after the cursor, and the cursor moves past it |
| TailRead.TailThenFollow | cli/dcoscli/tail/main.py:83-123 | the last lines of a small file, then nothing while it is idle, then exactly the lines appended |
| Topology.Tabbed | dcos/mesos.py:112 | one tab-prefixed entry per id, in order |
| Topology.AmbiguousListsAll | dcos/mesos.py:111-139 | the ambiguity messages for agents and tasks list every candidate id |
| Topology.MergeAppend | dcos/mesos.py:674-687 | merging keys `k1 + k2` is merging `k1`, then `k2` |
| Topology.MergeMember | dcos/mesos.py:674-687 | an element is in the merge exactly when it is in one of the merged lists |
| Topology.MergeSingle | dcos/mesos.py:674-687 | merging one key gives that key's list |
| Topology.MergeExample | dcos/mesos.py:676-677 | the docstring's example: merging `{'a': [1, 2], 'b': [3]}` on `['a', 'b']` gives 1, 2, 3 |
| Topology.SlaveMatchesAppend | dcos/mesos.py:159-170 | the agents matching a filter keep the document's order |
| Topology.SlaveMatchesSingle | dcos/mesos.py:170 | a single agent matches exactly when the filter is a substring of its id |
| Topology.SlaveMatchesMember | dcos/mesos.py:159-170 | an agent matches exactly when it is in the document and the filter is a substring of its id |
| Topology.Ids | dcos/mesos.py:112 | the ids of the documents, in order; used for the agents here and for the tasks at dcos/mesos.py:138 |
| Topology.SelectSlave | dcos/mesos.py:96-118 | the corrected choice: exactly one match succeeds with it; no match reports the filter; several report every candidate id |
| Topology.SelectSlaveAsWritten | dcos/mesos.py:96-118 | the code as written: like `SelectSlave` for at most one match; several matches fail on the missing `id` attribute |
| Topology.AmbiguousSlaveExample | dcos/mesos.py:112 | agents S1 and S10 with filter "S1": as written the lookup fails on the missing attribute, corrected it lists both ids |
| Topology.SelectTask | dcos/mesos.py:120-142 | exactly one match succeeds with it; no match reports the filter; several report every candidate task id |
| Topology.KeepFrameworksMember | dcos/mesos.py:268-270 | a framework is kept exactly when it is present and active, or inactive ones are asked for |
| Topology.FrameworkDictsMember | dcos/mesos.py:255-270 | the frameworks listed: the active-list ones and, when asked, the completed ones, minus inactive ones unless asked |
| Topology.TaskMatchesMember | dcos/mesos.py:172-195 | a (framework, task) pair is a match exactly when the task is in that framework's active list (or completed list, when `completed`) and its id passes the substring-or-glob filter |
| Topology.FrameworkTaskMatchesMember | dcos/mesos.py:190-193 | within one framework, a task is a match exactly when it is in the list and passes the filter |
| Topology.FrameworkTaskMatchesAppend | dcos/mesos.py:190-193 | the matches within one framework keep the list's order |
| Topology.TaskMatchesInAppend | dcos/mesos.py:188-195 | the matches over frameworks keep the frameworks' order |
| Topology.AnyWithIdMember | dcos/mesos.py:475 | Python's `any(task['id'] == ...)` holds exactly when some task has that id |
| Topology.ExecutorTasks | dcos/mesos.py:471-474 | the tasks of an executor are its completed, active and queued tasks, in that order |
| Topology.FirstWhere | dcos/mesos.py:470-476 | the index found, if any, is inside the list |
| Topology.FirstWhereFirst | dcos/mesos.py:470-478 | the index found satisfies the test and no earlier element does; when none is found, no element does |
| Topology.FirstExecutor | dcos/mesos.py:470-476 | the executor index found, if any, is inside the list |
| Topology.FirstExecutorFirst | dcos/mesos.py:464-478 | the executor found runs the task and no earlier executor does; when none is found, no executor runs it |
| Topology.ExecutorsOfMember | dcos/mesos.py:324-342 | an executor is listed exactly when one of the agent's frameworks has it as active or completed |
| Topology.ExecutorOfFirst | dcos/mesos.py:464-478 | the executor of a task is the first of its agent's executors that runs it; no such executor reports the task id |
| Topology.SubstringAgentIds | dcos/mesos.py:455-462 | a task on agent S1 of a cluster that also has S10 fails, because the agent is looked up by substring; under the corrected ambiguity rule of dcos/mesos.py:112 the failure lists both ids |
| Topology.FirstWithId | dcos/mesos.py:371-383 | the task found has the id and is in the list; none found means no task has it; with unique ids it is the only one |
| Topology.FirstFrameworkWithId | dcos/mesos.py:145-157 | the framework found has the id and is in the list; none found means none has it |
| Topology.FrameworkDictsInAll | dcos/mesos.py:255-270 | every framework listed is in the state document |
| Topology.TaskKeysInAll | dcos/mesos.py:184-190 | a task selected by the chosen keys is among the framework's tasks |
| Topology.SameFrameworkId | dcos/mesos.py:241-253 | in a well-formed document one framework id names one framework, so the cache by id is sound |
| Topology.SameSlaveId | dcos/mesos.py:227-239 | with unique agent ids one id names one agent, so the cache by id is sound |
| Topology.TaskMatchesInSnoc | dcos/mesos.py:189-193 | the matches over one more framework add that framework's matches at the end |
| Topology.TaskMatchesAnswered | dcos/mesos.py:188-195 | the loop's objects keep answering the matches of the frameworks seen so far |
| Topology.TasksOf | dcos/mesos.py:130-142 | the tasks of the matches, in order |
| Topology.SlaveIdsOf | dcos/mesos.py:159-170 | the agent ids of the objects, in order |
| Topology.TaskIdsOf | dcos/mesos.py:172-195 | the task ids of the objects, in order |
| Topology.AnswersAppend | dcos/mesos.py:172-195 | the objects for two runs of matches, concatenated, answer the concatenated matches |
| Topology.AnswersSnoc | dcos/mesos.py:190-193 | the objects keep answering the matches of the tasks seen so far |
| Topology.MesosSlave.constructor | dcos/mesos.py:283-286 | a new agent object has its document, no cached state and no fetch |
| Topology.MesosSlave.State | dcos/mesos.py:288-297 | the agent's state, fetched once and cached; an unreachable agent fails and caches nothing |
| Topology.MesosSlave.ExecutorDicts | dcos/mesos.py:324-342 | the active and completed executors of every framework of the agent's state, in order |
| Topology.Framework.constructor | dcos/mesos.py:366-369 | a new framework object has its document, its master and no cached tasks |
| Topology.Framework.TaskObj | dcos/mesos.py:385-397 | one object per task id: a cached one is returned, otherwise a fresh one is cached |
| Topology.Framework.FindTask | dcos/mesos.py:371-383 | the object of the first task with the id among the framework's tasks, or nothing |
| Topology.Task.constructor | dcos/mesos.py:425-427 | a task object holds its document and its master |
| Topology.Task.Slave | dcos/mesos.py:455-462 | the agent object chosen by the task's agent id used as a filter, or that lookup's failure (the corrected ambiguity rule) |
| Topology.Task.Executor | dcos/mesos.py:464-478 | the first executor of the task's agent that runs the task, or the failure |
| Topology.Task.Directory | dcos/mesos.py:480-486 | the executor's sandbox directory, or the failure |
| Topology.MesosMaster.constructor | dcos/mesos.py:48-55 | a new master has its documents and empty caches |
| Topology.MesosMaster.State | dcos/mesos.py:70-79 | the master's state document, fetched once and cached |
| Topology.MesosMaster.SlaveObj | dcos/mesos.py:227-239 | one object per agent id: a cached one is returned, otherwise a fresh one is cached |
| Topology.MesosMaster.FrameworkObj | dcos/mesos.py:241-253 | one object per framework id: a cached one is returned, otherwise a fresh one is cached |
| Topology.MesosMaster.Slaves | dcos/mesos.py:159-170 | one cached object per agent whose id contains the filter, in document order |
| Topology.MesosMaster.SlavesIn | dcos/mesos.py:168-170 | the loop over the agents answers the matches among them |
| Topology.MesosMaster.SlaveStep | dcos/mesos.py:168-170 | one agent's round adds its object exactly when it matches |
| Topology.MesosMaster.Slave | dcos/mesos.py:96-118 | the object of the single matching agent; otherwise the not-found failure, or for several matches the corrected ambiguity failure listing their ids |
| Topology.MesosMaster.TaskOf | dcos/mesos.py:192 | the object cached under the task's id by the cached object of its framework; nothing cached before changes, and at most that one entry is added |
| Topology.MesosMaster.CachedTask | dcos/mesos.py:371-397 | `task(task_id)` on a cached framework object returns the object it caches for the task; nothing cached before changes, and at most that entry is added |
| Topology.MesosMaster.CachedAppend | dcos/mesos.py:184-193 | objects cached for two runs of matches are cached for the runs together |
| Topology.MatchesSnoc | dcos/mesos.py:190-193 | one more task adds its own match, if any, after the earlier matches |
| Topology.MesosMaster.FrameworkTasks | dcos/mesos.py:184-193 | the objects for one framework's matching tasks, in order, each the one that framework's object caches; no cached object changes |
| Topology.MesosMaster.TaskStep | dcos/mesos.py:190-193 | one task's round adds its cached object exactly when it matches; no cached object changes |
| Topology.MesosMaster.Tasks | dcos/mesos.py:172-195 | the objects answer exactly the matching tasks of the listed frameworks, in order; each is the object the framework's object caches for that task id, and no cached object changes |
| Topology.MesosMaster.TasksIn | dcos/mesos.py:188-195 | the loop over the frameworks answers their matches with the cached objects |
| Topology.MesosMaster.FindTask | dcos/mesos.py:120-142 | the object of the single matching task; otherwise the not-found or ambiguous failure |
| Topology.MesosMaster.FindFramework | dcos/mesos.py:145-157 | the object of the first listed framework with the id, or nothing |
| TailEngine.LinesOf | cli/dcoscli/tail/main.py:234-235 | one published line per line, in order |
| TailEngine.ItemsAppend | cli/dcoscli/tail/main.py:203-212 | the lines, errors and banners of published items split over concatenation |
| TailEngine.ItemsOfLines | cli/dcoscli/tail/main.py:234-235 | publishing lines publishes exactly those lines and no error or banner |
| TailEngine.OutputPrints | cli/dcoscli/tail/main.py:217-236 | prints exactly the lines, preceded by the header only when there are lines and the header differs from the current one; returns the header |
| TailEngine.OutputGroups | cli/dcoscli/tail/main.py:231-235 | lines under the current header print with no banner |
| TailEngine.LastRead | cli/dcoscli/tail/main.py:212 | the last file read, if any, was read; none means every file failed |
| TailEngine.DrainSpec | cli/dcoscli/tail/main.py:203-214 | a pass prints every line read and one error per failed file, in completion order, and ends with the header of the last file read |
| TailEngine.WithoutMember | cli/dcoscli/tail/main.py:200-209 | a file remains exactly when it is listed and was not dropped |
| TailEngine.RemoveFirstWithout | cli/dcoscli/tail/main.py:209 | removing a failed file from the remaining list equals dropping it |
| TailEngine.WithoutIsSurvivors | cli/dcoscli/tail/main.py:200-214 | dropping the failed files leaves the survivors |
| TailEngine.SurvivorsMember | cli/dcoscli/tail/main.py:200-214 | a file survives a pass exactly when it was listed and read |
| TailEngine.SurvivorsDistinct | cli/dcoscli/tail/main.py:200-214 | the survivors are distinct files among those listed |
| TailEngine.StreamFiles | cli/dcoscli/tail/main.py:176-214 | the survivors in their listed order, and what the pass prints and its last header |
| TailEngine.DrainStep | cli/dcoscli/tail/main.py:203-212 | one completed job prints its error, or its lines under its header |
| TailEngine.Range | cli/dcoscli/tail/main.py:252 | the jobs `0 .. n - 1`, one per input |
| TailEngine.LoadSlavesState | cli/dcoscli/tail/main.py:152-173 | the agents reached, in completion order, and one report per agent that could not be reached |
| TailEngine.RangeBounds | cli/dcoscli/tail/main.py:252-254 | every completed job is one of the jobs submitted |
| TailEngine.ProbeStep | cli/dcoscli/tail/main.py:164-171 | one completed probe adds its agent or its report |
| TailEngine.ProbesAccounted | cli/dcoscli/tail/main.py:164-171 | every probe gives exactly one reached agent or one report |
| TailEngine.ReachedMember | cli/dcoscli/tail/main.py:152-173 | an agent is reported reachable exactly when one of its probes succeeded |
| TailEngine.ReachedInMember | cli/dcoscli/tail/main.py:164-167 | an agent is reached exactly when a completed probe for it succeeded |
| TailEngine.MesosFilesMember | cli/dcoscli/tail/main.py:147-149 | a task gets a file exactly when its agent is reachable |
| TailEngine.MesosFilesAppend | cli/dcoscli/tail/main.py:147-149 | the files keep the order of the tasks |
| TailEngine.RestrictMember | cli/dcoscli/tail/main.py:203 | a later pass runs exactly the live files |
| TailEngine.RestrictDistinct | cli/dcoscli/tail/main.py:203 | a later pass runs each live file once |
| TailEngine.RestrictPermutation | cli/dcoscli/tail/main.py:252-254 | the completion order of a later pass is a permutation of its live files |
| TailEngine.StopsSpec | cli/dcoscli/tail/main.py:114-120 | the follow loop fails exactly when some pass leaves no live file |
| TailEngine.LiveBounded | cli/dcoscli/tail/main.py:114-120 | the live files stay distinct files of the original list |
| TailEngine.LiveAfterMember | cli/dcoscli/tail/main.py:114-120 | a file is live after some passes exactly when every one of them read it |
| TailEngine.SurvivorsBounded | cli/dcoscli/tail/main.py:200-214 | after a pass the remaining files are distinct files of the original list |
| TailEngine.RestrictBounded | cli/dcoscli/tail/main.py:203 | the jobs a later pass runs are files of the original list |
| TailEngine.SurvivorsBounds | cli/dcoscli/tail/main.py:200-214 | the files left after a pass are files of the original list |
| TailEngine.FollowStep | cli/dcoscli/tail/main.py:114-120 | one follow pass prints its items, then the later passes print theirs unless it left no file; the loop stops there exactly when it left no file or a later pass does |
| TailEngine.FollowPass | cli/dcoscli/tail/main.py:114-120 | one follow pass over the live files: its survivors, its items and its last header, as `FollowStep` describes them |
| TailEngine.Follow | cli/dcoscli/tail/main.py:114-120 | the follow loop prints exactly `FollowItems`, the passes up to and including the first one that leaves no file, and stops exactly when some pass leaves no file |
| TailEngine.Tail | cli/dcoscli/tail/main.py:83-123 | no files fails before anything is read; without follow it prints exactly the first pass and finishes; with follow it prints the first pass and then exactly what the follow passes print up to the first that leaves no file, and fails exactly when some follow pass leaves no file |

## Left out

- HTTP itself is not modelled: `requests`, `urljoin`, `fetch`, `base_url` and `slave_base_url`, and `get_master` with its configuration. They are replaced by the documents each master and agent holds and by `RemoteFile.Serve`.
- The thread pool of `_stream` is replaced by a completion order given as an argument. That order is a permutation of the jobs.
- `time.sleep(1)` in the follow loop is left out. The follow loop runs one pass per element of a given sequence of passes, because the source runs until interrupted.
- The command line is left out: `main`, `_main`, `_cmds`, `_info` and docopt parsing. So is `int(lines)` on a non-numeric argument.
- `emitter.publish` is modelled as the sequence of published items, not as output on a terminal.
- `fnmatch` is a parameter `glob` of the task queries, because its pattern language is not modelled.
- Exception types other than the ones modelled are left out: a `KeyError` on a malformed document, and HTTP errors other than a connection error.
- The text of a connection error comes from the HTTP library. `Message` gives it as a fixed string.
- A falsy (empty) cached state dict, which the source would fetch again, is not modelled: a document is always non-empty.
- `MesosMaster.frameworks()`, `Task.framework()`, `Task.user()`, `dict()` and the `__getitem__` accessors are plain field reads and are not modelled.
- The fetch-duration decorator and the logging are left out.
- Topology.MesosMaster.Tasks: requires `WellFormed` (unique ids in the documents), so that each object holds the task document it answers.
- Topology.MesosMaster.Tasks: the source's `tasks` raises `NameError` on its undefined `active_only` (dcos/mesos.py:189), and the call from `_mesos_files` raises `TypeError` on its keyword (cli/dcoscli/tail/main.py:141 against dcos/mesos.py:172). The model answers what both callers evidently ask for.
- Topology.MesosMaster.FindTask: it answers through `Tasks`, where the source raises `NameError` as above.
- Topology.MesosMaster.FindFramework: the source raises `TypeError`, because it passes the keyword `active_only` (dcos/mesos.py:154) to a function whose parameter is `inactive` (dcos/mesos.py:255). The model includes inactive frameworks, as evidently intended.
- Topology.MesosMaster.Slave: several matching agents give the corrected ambiguity failure (`SelectSlave`). As written, the source raises `AttributeError` there (see Findings and `SelectSlaveAsWritten`).
- Topology.Task.Slave: it uses the corrected ambiguity rule, as `MesosMaster.Slave` does.
- Topology.Task.Executor: it uses the corrected ambiguity rule through `Task.Slave`.
- Topology.Task.Directory: it uses the corrected ambiguity rule through `Task.Executor`.
- Topology.SubstringAgentIds: it states the failure under the corrected ambiguity rule. As written the same input raises `AttributeError` (`AmbiguousSlaveExample`).
- Topology.MesosMaster.TaskOf: requires `WellFormed`, so that the cache by task id returns the task asked for.
- Topology.MesosMaster.FindTask: requires `WellFormed`, for the same reason.
- RemoteFile.MesosFile.constructor: a file is given its sandbox directory when it is created. The source asks the task for the directory on every request, and the answer does not change while the agent keeps its documents.
- TailEngine.MesosFiles: each task arrives as a `Target` whose agent was already found. The source calls `task.slave()` for each task here (cli/dcoscli/tail/main.py:144, 149), and a failing lookup stops the whole command. That lookup and its failures are modelled by `Topology.Task.Slave`.
- RemoteFile.FileEndpoint: the file content is a sequence of characters, each counted as one byte. The server's offsets and lengths are bytes (dcos/mesos.py:509-512, 578-580), while `read` and `_fetch_chunk` count the characters of the decoded reply (dcos/mesos.py:587-588, 648). The two agree only for single-byte text, so the model cannot show the cursor drifting on multi-byte content.
- RemoteFile.Serve: a negative offset other than -1 is modelled as echoed back with no data. The server's behaviour there is not documented.
- TailRead.ReadLastLines: the loop is bounded by a fuel argument. It returns `None` when the fuel runs out or the loop would not end (`LongLineDiverges`).
- The loop of `_output` is modelled as the function `LinesOf`, not as a method.

## Findings

| source | as written | input that shows it | evidently intended | confidence | as-written member | corrected member |
|---|---|---|---|---|---|---|
| cli/dcoscli/tail/main.py:298-299 | the next window's start is recomputed from the same `fetch_size`, so after the first round the window is empty and the loop never ends | a file holding one line of 201 characters and no newline, read with `lines=1` | widen the window each round (for example, start at `max(start - fetch_size, 0)`) until it reaches the start of the file | not executed | TailRead.OneLongLineDiverges | TailRead.ReadLastLinesWidening |
| dcos/mesos.py:112 | the ambiguity message reads `slave.id` on a `MesosSlave`, which has no attribute `id`, so it raises `AttributeError` instead of listing the candidates | agents S1 and S10, filter "S1" | list both agent ids in the ambiguity error | not executed | Topology.SelectSlaveAsWritten | Topology.SelectSlave |
