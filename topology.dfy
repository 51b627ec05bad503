/** The cluster topology of dcos/mesos.py: the master's and the agents'
    state documents, and the memoised object graph built over them
    (MesosMaster, MesosSlave, Framework, Task).

    The state documents are typed records; each record offers its lists
    as a key-to-list map so that `_merge` can be stated on maps, as the
    source states it on dicts. HTTP is left out: a master holds the
    document its `master/state.json` would answer, and the documents
    every agent's `state.json` would answer (an absent agent cannot be
    reached). */
module Topology {
  import opened Util
  import opened Lines

  datatype TaskDict = TaskDict(id: string, frameworkId: string, slaveId: string)

  datatype ExecutorDict = ExecutorDict(
    directory: string,
    tasks: seq<TaskDict>,
    completedTasks: seq<TaskDict>,
    queuedTasks: seq<TaskDict>)
  {
    function TaskLists(): map<string, seq<TaskDict>>
    {
      map["tasks" := tasks, "completed_tasks" := completedTasks, "queued_tasks" := queuedTasks]
    }
  }

  datatype FrameworkDict = FrameworkDict(
    id: string,
    active: bool,
    tasks: seq<TaskDict>,
    completedTasks: seq<TaskDict>,
    executors: seq<ExecutorDict>,
    completedExecutors: seq<ExecutorDict>)
  {
    function TaskLists(): map<string, seq<TaskDict>>
    {
      map["tasks" := tasks, "completed_tasks" := completedTasks]
    }

    function ExecutorLists(): map<string, seq<ExecutorDict>>
    {
      map["executors" := executors, "completed_executors" := completedExecutors]
    }
  }

  datatype SlaveDict = SlaveDict(id: string, pid: string)

  /** `master/state.json`. */
  datatype MasterState = MasterState(
    slaves: seq<SlaveDict>,
    frameworks: seq<FrameworkDict>,
    completedFrameworks: seq<FrameworkDict>)
  {
    function FrameworkLists(): map<string, seq<FrameworkDict>>
    {
      map["frameworks" := frameworks, "completed_frameworks" := completedFrameworks]
    }
  }

  /** An agent's `state.json`. */
  datatype SlaveState = SlaveState(frameworks: seq<FrameworkDict>, completedFrameworks: seq<FrameworkDict>)
  {
    function FrameworkLists(): map<string, seq<FrameworkDict>>
    {
      map["frameworks" := frameworks, "completed_frameworks" := completedFrameworks]
    }
  }

  const FRAMEWORK_KEYS: seq<string> := ["frameworks", "completed_frameworks"]
  const TASK_KEYS: seq<string> := ["tasks", "completed_tasks"]
  const EXECUTOR_KEYS: seq<string> := ["executors", "completed_executors"]
  const EXECUTOR_TASK_KEYS: seq<string> := ["completed_tasks", "tasks", "queued_tasks"]

  /** The failures the topology reports. */
  datatype Error =
    | SlaveNotFound(fltr: string)
    | SlaveAmbiguous(ids: seq<string>)
    | TaskNotFound(fltr: string)
    | TaskAmbiguous(ids: seq<string>)
    | ExecutorNotFound(taskId: string)
    | Unreachable(slaveId: string)
    | NoAttribute(name: string)

  function Tabbed(ids: seq<string>): (r: seq<string>)
    ensures |r| == |ids| && forall i :: 0 <= i < |ids| ==> r[i] == "\t" + ids[i]
  {
    if ids == [] then [] else ["\t" + ids[0]] + Tabbed(ids[1..])
  }

  /** The text of each failure, as the source formats it. An unreachable
      agent's text comes from the HTTP library, which is not modelled. */
  function Message(e: Error): string
  {
    match e
    case SlaveNotFound(f) => "Slave " + f + " no longer exists"
    case SlaveAmbiguous(ids) =>
      "There are multiple slaves with that id. " + "Please choose one: " + Join(Tabbed(ids))
    case TaskNotFound(f) => "Cannot find a task containing \"" + f + "\""
    case TaskAmbiguous(ids) =>
      Join(["There are multiple tasks with that id. Please choose one:"] + Tabbed(ids))
    case ExecutorNotFound(id) => "Could not find an executor for task [" + id + "]"
    case Unreachable(id) => "connection error"
    case NoAttribute(name) => "'MesosSlave' object has no attribute '" + name + "'"
  }

  lemma {:induction false} SubstringExtend(sub: string, pre: string, s: string)
    requires IsSubstring(sub, s)
    ensures IsSubstring(sub, pre + s)
    decreases |pre|
  {
    if pre != [] {
      SubstringExtend(sub, pre[1..], s);
      assert (pre + s)[1..] == pre[1..] + s;
    } else {
      assert pre + s == s;
    }
  }

  lemma {:induction false} JoinHasEach(lines: seq<string>, i: nat)
    requires i < |lines|
    ensures IsSubstring(lines[i], Join(lines))
    decreases |lines|
  {
    if i == 0 {
      if |lines| > 1 {
        assert Join(lines) == lines[0] + ("\n" + Join(lines[1..]));
      }
      assert lines[0] <= Join(lines);
    } else {
      JoinHasEach(lines[1..], i - 1);
      assert Join(lines) == (lines[0] + "\n") + Join(lines[1..]);
      SubstringExtend(lines[i], lines[0] + "\n", Join(lines[1..]));
    }
  }

  /** An ambiguity message names every candidate, each on its own
      tab-indented line. */
  lemma AmbiguousListsAll(ids: seq<string>, i: nat)
    requires i < |ids|
    ensures IsSubstring("\t" + ids[i], Message(SlaveAmbiguous(ids)))
    ensures IsSubstring("\t" + ids[i], Message(TaskAmbiguous(ids)))
  {
    var head := "There are multiple tasks with that id. Please choose one:";
    JoinHasEach(Tabbed(ids), i);
    SubstringExtend("\t" + ids[i], "There are multiple slaves with that id. " + "Please choose one: ", Join(Tabbed(ids)));
    JoinHasEach([head] + Tabbed(ids), i + 1);
  }

  /** `_merge(d, keys)`: the lists `d[k]` for `k` in `keys`, one after the
      other. Every key is present (the source fails otherwise). */
  function Merge<T>(d: map<string, seq<T>>, keys: seq<string>): (r: seq<T>)
    requires forall k :: k in keys ==> k in d
    decreases |keys|
  {
    if keys == [] then [] else d[keys[0]] + Merge(d, keys[1..])
  }

  /** Merging over two key lists is merging over each in turn. */
  lemma {:induction false} MergeAppend<T>(d: map<string, seq<T>>, k1: seq<string>, k2: seq<string>)
    requires forall k :: k in k1 + k2 ==> k in d
    ensures Merge(d, k1 + k2) == Merge(d, k1) + Merge(d, k2)
    decreases |k1|
  {
    if k1 != [] {
      assert (k1 + k2)[1..] == k1[1..] + k2;
      MergeAppend(d, k1[1..], k2);
    } else {
      assert k1 + k2 == k2;
    }
  }

  /** An element is merged exactly when one of the listed keys holds it. */
  lemma {:induction false} MergeMember<T>(d: map<string, seq<T>>, keys: seq<string>, x: T)
    requires forall k :: k in keys ==> k in d
    ensures x in Merge(d, keys) <==> exists i :: 0 <= i < |keys| && x in d[keys[i]]
    decreases |keys|
  {
    if keys != [] {
      MergeMember(d, keys[1..], x);
      if exists i :: 0 <= i < |keys| && x in d[keys[i]] {
        var i :| 0 <= i < |keys| && x in d[keys[i]];
        if i > 0 {
          assert keys[1..][i - 1] == keys[i];
        }
      }
      if exists i :: 0 <= i < |keys[1..]| && x in d[keys[1..][i]] {
        var i :| 0 <= i < |keys[1..]| && x in d[keys[1..][i]];
        assert keys[i + 1] == keys[1..][i];
      }
    }
  }

  lemma MergeSingle<T>(d: map<string, seq<T>>, k: string)
    requires k in d
    ensures Merge(d, [k]) == d[k]
  {
    assert [k][1..] == [];
    assert d[k] + [] == d[k];
  }

  /** The source's own example: `_merge({'a': [1, 2], 'b': [3]}, ['a', 'b'])`. */
  lemma MergeExample()
    ensures Merge(map["a" := [1, 2], "b" := [3]], ["a", "b"]) == [1, 2, 3]
  {
    var d := map["a" := [1, 2], "b" := [3]];
    assert ["a", "b"][1..] == ["b"];
    assert ["b"][1..] == [];
    assert Merge(d, ["b"]) == [3];
  }

  // ---------------------------------------------------------------------
  // Selection rules

  /** `[slave for slave in state['slaves'] if fltr in slave['id']]`. */
  function SlaveMatches(ss: seq<SlaveDict>, fltr: string): seq<SlaveDict>
  {
    if ss == [] then []
    else (if IsSubstring(fltr, ss[0].id) then [ss[0]] else []) + SlaveMatches(ss[1..], fltr)
  }

  /** The matches keep state order: matching distributes over
      concatenation, and a single slave is kept exactly when `fltr` is a
      substring of its id. */
  lemma {:induction false} SlaveMatchesAppend(a: seq<SlaveDict>, b: seq<SlaveDict>, fltr: string)
    ensures SlaveMatches(a + b, fltr) == SlaveMatches(a, fltr) + SlaveMatches(b, fltr)
    decreases |a|
  {
    if a != [] {
      assert (a + b)[1..] == a[1..] + b;
      SlaveMatchesAppend(a[1..], b, fltr);
      assert SlaveMatches(a + b, fltr)
          == (if IsSubstring(fltr, a[0].id) then [a[0]] else []) + SlaveMatches(a[1..] + b, fltr);
    } else {
      assert a + b == b;
    }
  }

  lemma SlaveMatchesSingle(s: SlaveDict, fltr: string)
    ensures SlaveMatches([s], fltr) == if IsSubstring(fltr, s.id) then [s] else []
  {
    assert [s][1..] == [];
  }

  lemma {:induction false} SlaveMatchesMember(ss: seq<SlaveDict>, fltr: string, s: SlaveDict)
    ensures s in SlaveMatches(ss, fltr) <==> s in ss && IsSubstring(fltr, s.id)
    decreases |ss|
  {
    if ss != [] {
      SlaveMatchesMember(ss[1..], fltr, s);
      assert ss == [ss[0]] + ss[1..];
    }
  }

  function SlaveId(s: SlaveDict): string { s.id }

  function TaskId(t: TaskDict): string { t.id }

  /** The ids of documents, in order; `id` reads a document's id. */
  function Ids<T>(xs: seq<T>, id: T -> string): (r: seq<string>)
    ensures |r| == |xs| && forall i :: 0 <= i < |xs| ==> r[i] == id(xs[i])
  {
    if xs == [] then [] else [id(xs[0])] + Ids(xs[1..], id)
  }

  /** The zero/one/many rule of `slave(fltr)`: no match is an error, more
      than one is an error naming every match, one is the answer. */
  function SelectSlave(matches: seq<SlaveDict>, fltr: string): (r: Result<SlaveDict, Error>)
    ensures r.Success? <==> |matches| == 1
    ensures r.Success? ==> r.value == matches[0]
    ensures |matches| == 0 ==> r == Failure(SlaveNotFound(fltr))
    ensures |matches| > 1 ==> r == Failure(SlaveAmbiguous(Ids(matches, SlaveId)))
  {
    if |matches| == 0 then Failure(SlaveNotFound(fltr))
    else if |matches| > 1 then Failure(SlaveAmbiguous(Ids(matches, SlaveId)))
    else Success(matches[0])
  }

  /** The same rule as the source writes it: the ambiguity message reads
      `slave.id`, an attribute `MesosSlave` does not have, so more than
      one match fails with an attribute error instead. */
  function SelectSlaveAsWritten(matches: seq<SlaveDict>, fltr: string): (r: Result<SlaveDict, Error>)
    ensures |matches| <= 1 ==> r == SelectSlave(matches, fltr)
    ensures |matches| > 1 ==> r == Failure(NoAttribute("id"))
  {
    if |matches| == 0 then Failure(SlaveNotFound(fltr))
    else if |matches| > 1 then Failure(NoAttribute("id"))
    else Success(matches[0])
  }

  /** Two agents whose ids both contain the filter: as written, the user
      gets an attribute error; the evident intent lists both ids. */
  lemma AmbiguousSlaveExample()
    ensures var m := SlaveMatches([SlaveDict("S1", "p1"), SlaveDict("S10", "p10")], "S1");
            SelectSlaveAsWritten(m, "S1") == Failure(NoAttribute("id")) &&
            SelectSlave(m, "S1") == Failure(SlaveAmbiguous(["S1", "S10"]))
  {
    var s1, s10 := SlaveDict("S1", "p1"), SlaveDict("S10", "p10");
    assert IsSubstring("S1", s1.id) by { assert "S1" <= "S1"; }
    assert IsSubstring("S1", s10.id) by { assert "S1" <= "S10"; }
    SlaveMatchesSingle(s1, "S1");
    SlaveMatchesSingle(s10, "S1");
    SlaveMatchesAppend([s1], [s10], "S1");
    assert [s1] + [s10] == [s1, s10];
    var m := SlaveMatches([s1, s10], "S1");
    assert m == [s1, s10];
    assert Ids(m, SlaveId) == ["S1", "S10"];
  }

  /** The zero/one/many rule of `task(fltr)`. */
  function SelectTask(matches: seq<TaskDict>, fltr: string): (r: Result<TaskDict, Error>)
    ensures r.Success? <==> |matches| == 1
    ensures r.Success? ==> r.value == matches[0]
    ensures |matches| == 0 ==> r == Failure(TaskNotFound(fltr))
    ensures |matches| > 1 ==> r == Failure(TaskAmbiguous(Ids(matches, TaskId)))
  {
    if |matches| == 0 then Failure(TaskNotFound(fltr))
    else if |matches| > 1 then Failure(TaskAmbiguous(Ids(matches, TaskId)))
    else Success(matches[0])
  }

  // ---------------------------------------------------------------------
  // Frameworks and tasks of the master's state

  function AllFrameworks(st: MasterState): seq<FrameworkDict>
  {
    Merge(st.FrameworkLists(), FRAMEWORK_KEYS)
  }

  /** The frameworks a filter on the active flag keeps. */
  function KeepFrameworks(fs: seq<FrameworkDict>, inactive: bool): seq<FrameworkDict>
  {
    if fs == [] then []
    else (if inactive || fs[0].active then [fs[0]] else []) + KeepFrameworks(fs[1..], inactive)
  }

  /** `_framework_dicts(inactive, completed)`: the active frameworks, or
      all of them when `inactive`, taken from `frameworks` and, when
      `completed`, from `completed_frameworks` after them. */
  function FrameworkDicts(st: MasterState, inactive: bool, completed: bool): seq<FrameworkDict>
  {
    KeepFrameworks(Merge(st.FrameworkLists(), if completed then FRAMEWORK_KEYS else ["frameworks"]), inactive)
  }

  lemma {:induction false} KeepFrameworksMember(fs: seq<FrameworkDict>, inactive: bool, f: FrameworkDict)
    ensures f in KeepFrameworks(fs, inactive) <==> f in fs && (inactive || f.active)
    decreases |fs|
  {
    if fs != [] {
      KeepFrameworksMember(fs[1..], inactive, f);
      assert fs == [fs[0]] + fs[1..];
    }
  }

  /** A framework is yielded exactly when it is listed under a merged key
      and it is active or inactive ones are asked for. */
  lemma FrameworkDictsMember(st: MasterState, inactive: bool, completed: bool, f: FrameworkDict)
    ensures f in FrameworkDicts(st, inactive, completed) <==>
            (f in st.frameworks || (completed && f in st.completedFrameworks)) && (inactive || f.active)
  {
    var keys := if completed then FRAMEWORK_KEYS else ["frameworks"];
    KeepFrameworksMember(Merge(st.FrameworkLists(), keys), inactive, f);
    MergeMember(st.FrameworkLists(), keys, f);
    if completed {
      assert keys[0] == "frameworks" && keys[1] == "completed_frameworks";
    } else {
      assert keys[0] == "frameworks";
    }
  }

  /** Whether `tasks(fltr)` keeps a task id: `fltr` is a substring of it,
      or the id matches `fltr` as a glob (`fnmatch.fnmatchcase`, given as
      the parameter `glob`). */
  predicate TaskSelected(id: string, fltr: string, glob: (string, string) -> bool)
  {
    IsSubstring(fltr, id) || glob(id, fltr)
  }

  /** The tasks of one framework `tasks(fltr)` keeps, each paired with
      the framework it was found in. */
  function FrameworkTaskMatches(ts: seq<TaskDict>, fid: string, fltr: string, glob: (string, string) -> bool)
    : seq<(string, TaskDict)>
  {
    if ts == [] then []
    else
      (if TaskSelected(ts[0].id, fltr, glob) then [(fid, ts[0])] else [])
      + FrameworkTaskMatches(ts[1..], fid, fltr, glob)
  }

  function TaskKeys(completed: bool): seq<string>
  {
    if completed then ["completed_tasks"] else ["tasks"]
  }

  /** The matches among one framework's chosen task list. */
  function FrameworkMatches(f: FrameworkDict, completed: bool, fltr: string, glob: (string, string) -> bool)
    : seq<(string, TaskDict)>
  {
    FrameworkTaskMatches(Merge(f.TaskLists(), TaskKeys(completed)), f.id, fltr, glob)
  }

  /** All matches of `tasks(fltr, completed, inactive)`, framework by
      framework, in state order. */
  function TaskMatchesIn(fs: seq<FrameworkDict>, completed: bool, fltr: string, glob: (string, string) -> bool)
    : seq<(string, TaskDict)>
  {
    if fs == [] then []
    else FrameworkMatches(fs[0], completed, fltr, glob) + TaskMatchesIn(fs[1..], completed, fltr, glob)
  }

  function TaskMatches(st: MasterState, inactive: bool, completed: bool, fltr: string, glob: (string, string) -> bool)
    : seq<(string, TaskDict)>
  {
    TaskMatchesIn(FrameworkDicts(st, inactive, false), completed, fltr, glob)
  }

  /** `tasks(completed=True)` looks at `completed_tasks` INSTEAD of
      `tasks`, not in addition: a task is matched exactly when it is in
      the one chosen list of a yielded framework and passes the filter. */
  lemma {:induction false} TaskMatchesMember(fs: seq<FrameworkDict>, completed: bool, fltr: string,
                                             glob: (string, string) -> bool, fid: string, t: TaskDict)
    ensures (fid, t) in TaskMatchesIn(fs, completed, fltr, glob) <==>
            exists i :: 0 <= i < |fs| && fs[i].id == fid && TaskSelected(t.id, fltr, glob) &&
                        (if completed then t in fs[i].completedTasks else t in fs[i].tasks)
    decreases |fs|
  {
    if fs != [] {
      TaskMatchesMember(fs[1..], completed, fltr, glob, fid, t);
      var ts := Merge(fs[0].TaskLists(), TaskKeys(completed));
      MergeSingle(fs[0].TaskLists(), TaskKeys(completed)[0]);
      assert TaskKeys(completed) == [TaskKeys(completed)[0]];
      assert ts == if completed then fs[0].completedTasks else fs[0].tasks;
      FrameworkTaskMatchesMember(ts, fs[0].id, fltr, glob, fid, t);
      if exists i :: 0 <= i < |fs[1..]| && fs[1..][i].id == fid && TaskSelected(t.id, fltr, glob) &&
                     (if completed then t in fs[1..][i].completedTasks else t in fs[1..][i].tasks) {
        var i :| 0 <= i < |fs[1..]| && fs[1..][i].id == fid && TaskSelected(t.id, fltr, glob) &&
                 (if completed then t in fs[1..][i].completedTasks else t in fs[1..][i].tasks);
        assert fs[i + 1] == fs[1..][i];
      }
      if exists i :: 0 <= i < |fs| && fs[i].id == fid && TaskSelected(t.id, fltr, glob) &&
                     (if completed then t in fs[i].completedTasks else t in fs[i].tasks) {
        var i :| 0 <= i < |fs| && fs[i].id == fid && TaskSelected(t.id, fltr, glob) &&
                 (if completed then t in fs[i].completedTasks else t in fs[i].tasks);
        if i > 0 {
          assert fs[1..][i - 1] == fs[i];
        }
      }
    }
  }

  lemma {:induction false} FrameworkTaskMatchesMember(ts: seq<TaskDict>, fid: string, fltr: string,
                                                      glob: (string, string) -> bool, fid': string, t: TaskDict)
    ensures (fid', t) in FrameworkTaskMatches(ts, fid, fltr, glob) <==>
            fid' == fid && t in ts && TaskSelected(t.id, fltr, glob)
    decreases |ts|
  {
    if ts != [] {
      FrameworkTaskMatchesMember(ts[1..], fid, fltr, glob, fid', t);
      assert ts == [ts[0]] + ts[1..];
    }
  }

  /** `any(task['id'] == id for task in ts)`. */
  predicate AnyWithId(ts: seq<TaskDict>, id: string)
    decreases |ts|
  {
    ts != [] && (ts[0].id == id || AnyWithId(ts[1..], id))
  }

  lemma {:induction false} AnyWithIdMember(ts: seq<TaskDict>, id: string)
    ensures AnyWithId(ts, id) <==> exists t :: t in ts && t.id == id
    decreases |ts|
  {
    if ts != [] {
      AnyWithIdMember(ts[1..], id);
      assert ts == [ts[0]] + ts[1..];
    }
  }

  /** Whether an executor runs a task: its merged `completed_tasks`,
      `tasks` and `queued_tasks` hold the task id. */
  predicate Runs(e: ExecutorDict, taskId: string)
  {
    AnyWithId(ExecutorTasks(e), taskId)
  }

  /** `_merge(executor, ['completed_tasks', 'tasks', 'queued_tasks'])`. */
  function ExecutorTasks(e: ExecutorDict): (r: seq<TaskDict>)
    ensures r == e.completedTasks + e.tasks + e.queuedTasks
  {
    var d := e.TaskLists();
    assert EXECUTOR_TASK_KEYS[1..] == ["tasks", "queued_tasks"] && EXECUTOR_TASK_KEYS[2..] == ["queued_tasks"];
    MergeSingle(d, "queued_tasks");
    Merge(d, EXECUTOR_TASK_KEYS)
  }

  /** The position of the first element of `s` that satisfies `p`. */
  function FirstWhere<T>(s: seq<T>, p: T -> bool): (r: Option<nat>)
    ensures r.Some? ==> r.value < |s|
    decreases |s|
  {
    if s == [] then None
    else if p(s[0]) then Some(0)
    else match FirstWhere(s[1..], p)
      case None => None
      case Some(i) => Some(i + 1)
  }

  /** The element found satisfies `p` and none before it does; when none
      is found, no element does. */
  lemma {:induction false} FirstWhereFirst<T>(s: seq<T>, p: T -> bool)
    ensures var r := FirstWhere(s, p);
            && (r.Some? ==> p(s[r.value]))
            && (r.Some? ==> forall j :: 0 <= j < r.value ==> !p(s[j]))
            && (r.None? ==> forall j :: 0 <= j < |s| ==> !p(s[j]))
    decreases |s|
  {
    if s != [] && !p(s[0]) {
      FirstWhereFirst(s[1..], p);
      forall j | 1 <= j < |s| ensures s[j] == s[1..][j - 1] {
      }
    }
  }

  /** The position of the first executor, in merge order, that runs the
      task (the loop of `Task.executor`). */
  function FirstExecutor(execs: seq<ExecutorDict>, taskId: string): (r: Option<nat>)
    ensures r.Some? ==> r.value < |execs|
  {
    FirstWhere(execs, e => Runs(e, taskId))
  }

  /** The executor found runs the task and none before it does; when
      none is found, no executor runs it. */
  lemma FirstExecutorFirst(execs: seq<ExecutorDict>, taskId: string)
    ensures var r := FirstExecutor(execs, taskId);
            && (r.Some? ==> Runs(execs[r.value], taskId))
            && (r.Some? ==> forall j :: 0 <= j < r.value ==> !Runs(execs[j], taskId))
            && (r.None? ==> forall j :: 0 <= j < |execs| ==> !Runs(execs[j], taskId))
  {
    FirstWhereFirst(execs, e => Runs(e, taskId));
  }

  /** `executor_dicts()` of an agent's state: for each framework of
      `frameworks` then `completed_frameworks`, its `executors` then its
      `completed_executors`. */
  function ExecutorsOf(fs: seq<FrameworkDict>): seq<ExecutorDict>
  {
    if fs == [] then [] else Merge(fs[0].ExecutorLists(), EXECUTOR_KEYS) + ExecutorsOf(fs[1..])
  }

  function ExecutorDictsOf(st: SlaveState): seq<ExecutorDict>
  {
    ExecutorsOf(Merge(st.FrameworkLists(), FRAMEWORK_KEYS))
  }

  /** An agent's executor list holds exactly the executors of its active
      and completed frameworks, active and completed alike. */
  lemma {:induction false} ExecutorsOfMember(fs: seq<FrameworkDict>, e: ExecutorDict)
    ensures e in ExecutorsOf(fs) <==>
            exists i :: 0 <= i < |fs| && (e in fs[i].executors || e in fs[i].completedExecutors)
    decreases |fs|
  {
    if fs != [] {
      ExecutorsOfMember(fs[1..], e);
      MergeMember(fs[0].ExecutorLists(), EXECUTOR_KEYS, e);
      assert EXECUTOR_KEYS[0] == "executors" && EXECUTOR_KEYS[1] == "completed_executors";
      if exists i :: 0 <= i < |fs| && (e in fs[i].executors || e in fs[i].completedExecutors) {
        var i :| 0 <= i < |fs| && (e in fs[i].executors || e in fs[i].completedExecutors);
        if i > 0 {
          assert fs[1..][i - 1] == fs[i];
        }
      }
      if exists i :: 0 <= i < |fs[1..]| && (e in fs[1..][i].executors || e in fs[1..][i].completedExecutors) {
        var i :| 0 <= i < |fs[1..]| && (e in fs[1..][i].executors || e in fs[1..][i].completedExecutors);
        assert fs[i + 1] == fs[1..][i];
      }
    }
  }

  function AgentReply(agents: map<string, SlaveState>, id: string): Option<SlaveState>
  {
    if id in agents then Some(agents[id]) else None
  }

  /** `Task.executor()` as a function of the documents: find the task's
      agent with the `slave(fltr)` rule applied to its `slave_id`, fetch
      that agent's state, and take the first executor running the task. */
  function ExecutorOf(st: MasterState, agents: map<string, SlaveState>, task: TaskDict): Result<ExecutorDict, Error>
  {
    match SelectSlave(SlaveMatches(st.slaves, task.slaveId), task.slaveId)
    case Failure(e) => Failure(e)
    case Success(s) =>
      match AgentReply(agents, s.id)
      case None => Failure(Unreachable(s.id))
      case Some(ss) =>
        var execs := ExecutorDictsOf(ss);
        match FirstExecutor(execs, task.id)
        case None => Failure(ExecutorNotFound(task.id))
        case Some(i) => Success(execs[i])
  }

  /** What `ExecutorOf` promises: the executor found runs the task and is
      the first that does; failing to find one means none does. */
  lemma ExecutorOfFirst(st: MasterState, agents: map<string, SlaveState>, task: TaskDict, s: SlaveDict)
    requires SlaveMatches(st.slaves, task.slaveId) == [s] && s.id in agents
    ensures var execs := ExecutorDictsOf(agents[s.id]);
            match ExecutorOf(st, agents, task)
            case Success(e) =>
              exists i :: 0 <= i < |execs| && execs[i] == e && Runs(e, task.id) &&
                          forall j :: 0 <= j < i ==> !Runs(execs[j], task.id)
            case Failure(err) =>
              err == ExecutorNotFound(task.id) && forall j :: 0 <= j < |execs| ==> !Runs(execs[j], task.id)
  {
    FirstExecutorFirst(ExecutorDictsOf(agents[s.id]), task.id);
  }

  /** `slave(fltr)` matches by substring, so even a task's own full agent
      id is ambiguous when it is a prefix of another agent's id. */
  lemma SubstringAgentIds()
    ensures var ss := [SlaveDict("S1", "p1"), SlaveDict("S10", "p10")];
            var agents := map["S1" := SlaveState([], []), "S10" := SlaveState([], [])];
            ExecutorOf(MasterState(ss, [], []), agents, TaskDict("t", "f", "S1")) == Failure(SlaveAmbiguous(["S1", "S10"]))
  {
    var ss := [SlaveDict("S1", "p1"), SlaveDict("S10", "p10")];
    var s1, s10 := SlaveDict("S1", "p1"), SlaveDict("S10", "p10");
    assert IsSubstring("S1", s1.id) by { assert "S1" <= "S1"; }
    assert IsSubstring("S1", s10.id) by { assert "S1" <= "S10"; }
    SlaveMatchesSingle(s1, "S1");
    SlaveMatchesSingle(s10, "S1");
    SlaveMatchesAppend([s1], [s10], "S1");
    assert [s1] + [s10] == ss;
    assert Ids(ss, SlaveId) == ["S1", "S10"];
  }

  /** Ids in the documents are unique, as the cluster guarantees: agents
      by id, frameworks by id across active and completed ones, tasks by
      id within a framework's active and completed tasks. */
  ghost predicate WellFormed(st: MasterState)
  {
    && (forall i, j :: 0 <= i < j < |st.slaves| ==> st.slaves[i].id != st.slaves[j].id)
    && (forall i, j :: 0 <= i < j < |AllFrameworks(st)| ==> AllFrameworks(st)[i].id != AllFrameworks(st)[j].id)
    && (forall f :: f in AllFrameworks(st) ==> UniqueTaskIds(Merge(f.TaskLists(), TASK_KEYS)))
  }

  predicate UniqueTaskIds(ts: seq<TaskDict>)
  {
    forall i, j :: 0 <= i < j < |ts| ==> ts[i].id != ts[j].id
  }

  /** The first task of `ts` with the given id (`Framework.task`'s scan). */
  function FirstWithId(ts: seq<TaskDict>, id: string): (r: Option<TaskDict>)
    ensures r.Some? ==> r.value in ts && r.value.id == id
    ensures r.None? ==> forall t :: t in ts ==> t.id != id
    ensures UniqueTaskIds(ts) ==> forall t :: t in ts && t.id == id ==> r == Some(t)
    decreases |ts|
  {
    if ts == [] then None
    else if ts[0].id == id then Some(ts[0])
    else
      assert UniqueTaskIds(ts) ==> UniqueTaskIds(ts[1..]) by {
        if UniqueTaskIds(ts) {
          forall i, j | 0 <= i < j < |ts[1..]| ensures ts[1..][i].id != ts[1..][j].id {
            assert ts[1..][i] == ts[i + 1] && ts[1..][j] == ts[j + 1];
          }
        }
      }
      FirstWithId(ts[1..], id)
  }

  /** The first framework of `fs` with the given id (`framework()`'s scan). */
  function FirstFrameworkWithId(fs: seq<FrameworkDict>, id: string): (r: Option<FrameworkDict>)
    ensures r.Some? ==> r.value in fs && r.value.id == id
    ensures r.None? ==> forall f :: f in fs ==> f.id != id
    decreases |fs|
  {
    if fs == [] then None
    else if fs[0].id == id then Some(fs[0])
    else FirstFrameworkWithId(fs[1..], id)
  }

  lemma FrameworkDictsInAll(st: MasterState, inactive: bool, completed: bool, f: FrameworkDict)
    requires f in FrameworkDicts(st, inactive, completed)
    ensures f in AllFrameworks(st)
  {
    FrameworkDictsMember(st, inactive, completed, f);
    MergeMember(st.FrameworkLists(), FRAMEWORK_KEYS, f);
    assert FRAMEWORK_KEYS[0] == "frameworks" && FRAMEWORK_KEYS[1] == "completed_frameworks";
  }

  lemma TaskKeysInAll(f: FrameworkDict, completed: bool, t: TaskDict)
    requires t in Merge(f.TaskLists(), TaskKeys(completed))
    ensures t in Merge(f.TaskLists(), TASK_KEYS)
  {
    MergeSingle(f.TaskLists(), TaskKeys(completed)[0]);
    assert TaskKeys(completed) == [TaskKeys(completed)[0]];
    MergeMember(f.TaskLists(), TASK_KEYS, t);
    assert TASK_KEYS[0] == "tasks" && TASK_KEYS[1] == "completed_tasks";
  }

  /** In a well-formed state a framework is determined by its id. */
  lemma SameFrameworkId(st: MasterState, f: FrameworkDict, g: FrameworkDict)
    requires WellFormed(st) && f in AllFrameworks(st) && g in AllFrameworks(st) && f.id == g.id
    ensures f == g
  {
    var all := AllFrameworks(st);
    var i :| 0 <= i < |all| && all[i] == f;
    var j :| 0 <= j < |all| && all[j] == g;
    assert i == j;
  }

  /** Agents with unique ids. */
  predicate UniqueSlaveIds(st: MasterState)
  {
    forall i, j :: 0 <= i < j < |st.slaves| ==> st.slaves[i].id != st.slaves[j].id
  }

  lemma SameSlaveId(st: MasterState, s: SlaveDict, u: SlaveDict)
    requires UniqueSlaveIds(st) && s in st.slaves && u in st.slaves && s.id == u.id
    ensures s == u
  {
    var i :| 0 <= i < |st.slaves| && st.slaves[i] == s;
    var j :| 0 <= j < |st.slaves| && st.slaves[j] == u;
    assert i == j;
  }

  lemma {:induction false} FrameworkTaskMatchesAppend(a: seq<TaskDict>, b: seq<TaskDict>, fid: string,
                                                      fltr: string, glob: (string, string) -> bool)
    ensures FrameworkTaskMatches(a + b, fid, fltr, glob)
         == FrameworkTaskMatches(a, fid, fltr, glob) + FrameworkTaskMatches(b, fid, fltr, glob)
    decreases |a|
  {
    if a != [] {
      assert (a + b)[1..] == a[1..] + b;
      FrameworkTaskMatchesAppend(a[1..], b, fid, fltr, glob);
    } else {
      assert a + b == b;
    }
  }

  lemma {:induction false} TaskMatchesInAppend(a: seq<FrameworkDict>, b: seq<FrameworkDict>, completed: bool,
                                               fltr: string, glob: (string, string) -> bool)
    ensures TaskMatchesIn(a + b, completed, fltr, glob)
         == TaskMatchesIn(a, completed, fltr, glob) + TaskMatchesIn(b, completed, fltr, glob)
    decreases |a|
  {
    if a != [] {
      assert (a + b)[1..] == a[1..] + b;
      TaskMatchesInAppend(a[1..], b, completed, fltr, glob);
    } else {
      assert a + b == b;
    }
  }

  lemma TaskMatchesInSnoc(fs: seq<FrameworkDict>, i: nat, completed: bool, fltr: string, glob: (string, string) -> bool)
    requires i < |fs|
    ensures TaskMatchesIn(fs[..i + 1], completed, fltr, glob)
         == TaskMatchesIn(fs[..i], completed, fltr, glob) + FrameworkMatches(fs[i], completed, fltr, glob)
  {
    assert fs[..i + 1] == fs[..i] + [fs[i]];
    TaskMatchesInAppend(fs[..i], [fs[i]], completed, fltr, glob);
    assert [fs[i]][1..] == [];
    assert TaskMatchesIn([fs[i]], completed, fltr, glob) == FrameworkMatches(fs[i], completed, fltr, glob) + [];
  }

  lemma TaskMatchesAnswered(r: seq<Task>, more: seq<Task>, fs: seq<FrameworkDict>, i: nat, completed: bool,
                            fltr: string, glob: (string, string) -> bool)
    requires i < |fs|
    requires Answers(r, TaskMatchesIn(fs[..i], completed, fltr, glob))
    requires Answers(more, FrameworkMatches(fs[i], completed, fltr, glob))
    ensures Answers(r + more, TaskMatchesIn(fs[..i + 1], completed, fltr, glob))
  {
    TaskMatchesInSnoc(fs, i, completed, fltr, glob);
    AnswersAppend(r, TaskMatchesIn(fs[..i], completed, fltr, glob), more, FrameworkMatches(fs[i], completed, fltr, glob));
  }

  function TasksOf(m: seq<(string, TaskDict)>): (r: seq<TaskDict>)
    ensures |r| == |m| && forall k :: 0 <= k < |m| ==> r[k] == m[k].1
  {
    if m == [] then [] else [m[0].1] + TasksOf(m[1..])
  }

  function SlaveIdsOf(os: seq<MesosSlave>): (r: seq<string>)
    ensures |r| == |os| && forall k :: 0 <= k < |os| ==> r[k] == os[k].slave.id
  {
    if os == [] then [] else [os[0].slave.id] + SlaveIdsOf(os[1..])
  }

  function TaskIdsOf(os: seq<Task>): (r: seq<string>)
    ensures |r| == |os| && forall k :: 0 <= k < |os| ==> r[k] == os[k].task.id
  {
    if os == [] then [] else [os[0].task.id] + TaskIdsOf(os[1..])
  }

  // ---------------------------------------------------------------------
  // The object graph

  /** The task objects answer the matches, one for one. */
  predicate Answers(r: seq<Task>, m: seq<(string, TaskDict)>)
  {
    |r| == |m| && forall k :: 0 <= k < |m| ==> r[k].task == m[k].1
  }

  lemma AnswersAppend(r1: seq<Task>, m1: seq<(string, TaskDict)>, r2: seq<Task>, m2: seq<(string, TaskDict)>)
    requires Answers(r1, m1) && Answers(r2, m2)
    ensures Answers(r1 + r2, m1 + m2)
  {
  }

  lemma AnswersSnoc(r: seq<Task>, more: seq<Task>, ts: seq<TaskDict>, j: nat, fid: string, fltr: string,
                    glob: (string, string) -> bool)
    requires j < |ts|
    requires Answers(r, FrameworkTaskMatches(ts[..j], fid, fltr, glob))
    requires Answers(more, FrameworkTaskMatches([ts[j]], fid, fltr, glob))
    ensures Answers(r + more, FrameworkTaskMatches(ts[..j + 1], fid, fltr, glob))
  {
    MatchesSnoc(ts, j, fid, fltr, glob);
  }

  lemma MatchesSnoc(ts: seq<TaskDict>, j: nat, fid: string, fltr: string, glob: (string, string) -> bool)
    requires j < |ts|
    ensures FrameworkTaskMatches(ts[..j + 1], fid, fltr, glob)
         == FrameworkTaskMatches(ts[..j], fid, fltr, glob) + FrameworkTaskMatches([ts[j]], fid, fltr, glob)
  {
    assert ts[..j + 1] == ts[..j] + [ts[j]];
    FrameworkTaskMatchesAppend(ts[..j], [ts[j]], fid, fltr, glob);
  }

  /** `MesosSlave`: an agent's entry in the master's state, with its
      `state.json` fetched at most once. */
  class MesosSlave {
    const slave: SlaveDict
    /** What the agent's `state.json` answers; `None` when it cannot be
        reached. */
    const reply: Option<SlaveState>
    var state: Option<SlaveState>
    /** How many times `state.json` was requested. */
    ghost var fetches: nat

    ghost predicate Valid()
      reads this
    {
      && (state.Some? ==> state == reply)
      && (reply.Some? ==> fetches <= 1 && (state.None? <==> fetches == 0))
    }

    constructor (slave: SlaveDict, reply: Option<SlaveState>)
      ensures this.slave == slave && this.reply == reply
      ensures state == None && fetches == 0 && Valid()
    {
      this.slave := slave;
      this.reply := reply;
      state := None;
      fetches := 0;
    }

    /** `state()`: the agent's state document. Only a call that finds no
        cached document asks the agent; an unreachable agent is asked
        again on the next call, a reachable one never. */
    method State() returns (r: Result<SlaveState, Error>)
      requires Valid()
      modifies this`state, this`fetches
      ensures Valid()
      ensures reply.Some? ==> r == Success(reply.value) && state == reply
      ensures reply.None? ==> r == Failure(Unreachable(slave.id)) && state == None
      ensures fetches == if old(state).Some? then old(fetches) else old(fetches) + 1
    {
      if state.None? {
        fetches := fetches + 1;
        state := reply;
      }
      if state.None? {
        return Failure(Unreachable(slave.id));
      }
      return Success(state.value);
    }

    /** `executor_dicts()`: the executors of the agent's state. */
    method ExecutorDicts() returns (r: Result<seq<ExecutorDict>, Error>)
      requires Valid()
      modifies this`state, this`fetches
      ensures Valid()
      ensures reply.Some? ==> r == Success(ExecutorDictsOf(reply.value)) && state == reply
      ensures reply.None? ==> r == Failure(Unreachable(slave.id)) && state == None
      ensures fetches == if old(state).Some? then old(fetches) else old(fetches) + 1
    {
      var st := State();
      if st.Failure? {
        return Failure(st.error);
      }
      return Success(ExecutorDictsOf(st.value));
    }
  }

  /** `Framework`: a framework of the master's state, with a cache of
      task objects by id. */
  class Framework {
    const framework: FrameworkDict
    const master: MesosMaster
    var tasks: map<string, Task>

    /** Every cached task object stands for the task of that id. */
    ghost predicate Valid()
      reads this
    {
      forall id :: id in tasks ==>
        tasks[id].task.id == id && tasks[id].task in Merge(framework.TaskLists(), TASK_KEYS) &&
        tasks[id].master == master
    }

    constructor (framework: FrameworkDict, master: MesosMaster)
      ensures this.framework == framework && this.master == master
      ensures tasks == map[] && Valid()
    {
      this.framework := framework;
      this.master := master;
      tasks := map[];
    }

    /** `_task_obj(task)`: the cached object for the task's id, created
        and cached only when there is none. */
    method TaskObj(t: TaskDict) returns (o: Task)
      requires Valid() && t in Merge(framework.TaskLists(), TASK_KEYS)
      modifies this`tasks
      ensures Valid()
      ensures t.id in old(tasks) ==> tasks == old(tasks) && o == old(tasks)[t.id]
      ensures t.id !in old(tasks) ==> fresh(o) && o.task == t && o.master == master && tasks == old(tasks)[t.id := o]
    {
      if t.id !in tasks {
        var created := new Task(t, master);
        tasks := tasks[t.id := created];
      }
      o := tasks[t.id];
    }

    /** `task(task_id)`: the object for the first task, among `tasks` then
        `completed_tasks`, with that id; `None` when there is none. */
    method FindTask(taskId: string) returns (r: Option<Task>)
      requires Valid()
      modifies this`tasks
      ensures Valid()
      ensures match FirstWithId(Merge(framework.TaskLists(), TASK_KEYS), taskId)
              case None => r == None && tasks == old(tasks)
              case Some(t) =>
                && r.Some? && r.value.task.id == taskId
                && (t.id in old(tasks) ==> tasks == old(tasks) && r.value == old(tasks)[t.id])
                && (t.id !in old(tasks) ==> fresh(r.value) && r.value.task == t && tasks == old(tasks)[t.id := r.value])
                && (UniqueTaskIds(Merge(framework.TaskLists(), TASK_KEYS)) ==> r.value.task == t)
    {
      match FirstWithId(Merge(framework.TaskLists(), TASK_KEYS), taskId)
      case None =>
        return None;
      case Some(t) =>
        var o := TaskObj(t);
        return Some(o);
    }
  }

  /** `Task`: a task of the master's state. */
  class Task {
    const task: TaskDict
    const master: MesosMaster

    constructor (task: TaskDict, master: MesosMaster)
      ensures this.task == task && this.master == master
    {
      this.task := task;
      this.master := master;
    }

    /** `slave()`: the master's `slave(fltr)` applied to the task's
        `slave_id`. */
    method Slave() returns (r: Result<MesosSlave, Error>)
      requires master.Valid()
      modifies master`state, master`fetches, master`slaves
      ensures master.Valid() && master.SlavesGrow()
      ensures match SelectSlave(SlaveMatches(master.endpoint.slaves, task.slaveId), task.slaveId)
              case Failure(e) => r == Failure(e)
              case Success(s) =>
                && r.Success? && s.id in master.slaves && r.value == master.slaves[s.id]
                && r.value.slave.id == s.id && r.value.reply == AgentReply(master.agents, s.id)
    {
      r := master.Slave(task.slaveId);
    }

    /** `executor()`: the first executor of the task's agent that runs
        the task, or the error of finding the agent, reaching it or
        finding no such executor. */
    method Executor() returns (r: Result<ExecutorDict, Error>)
      requires master.Valid()
      modifies master`state, master`fetches, master`slaves, master.slaves.Values
      ensures master.Valid() && master.SlavesGrow()
      ensures r == ExecutorOf(master.endpoint, master.agents, task)
    {
      var found := Slave();
      if found.Failure? {
        return Failure(found.error);
      }
      var so := found.value;
      assert so in old(master.slaves).Values || fresh(so) by {
        if so.slave.id in old(master.slaves) {
          assert so == old(master.slaves)[so.slave.id];
        }
      }
      assert so in master.slaves.Values && so == master.slaves[so.slave.id];
      assert master.SlaveEntry(so.slave.id, so);
      label mid:
      var execs := so.ExecutorDicts();
      master.SlaveStateChanged@mid(so);
      if execs.Failure? {
        return Failure(execs.error);
      }
      match FirstExecutor(execs.value, task.id)
      case None =>
        return Failure(ExecutorNotFound(task.id));
      case Some(i) =>
        return Success(execs.value[i]);
    }

    /** `directory()`: the sandbox directory of the task's executor. */
    method Directory() returns (r: Result<string, Error>)
      requires master.Valid()
      modifies master`state, master`fetches, master`slaves, master.slaves.Values
      ensures master.Valid() && master.SlavesGrow()
      ensures match ExecutorOf(master.endpoint, master.agents, task)
              case Success(e) => r == Success(e.directory)
              case Failure(err) => r == Failure(err)
    {
      var e := Executor();
      if e.Failure? {
        return Failure(e.error);
      }
      return Success(e.value.directory);
    }
  }

  /** `MesosMaster`: the master's state document, fetched at most once,
      and the caches of agent and framework objects by id. */
  class MesosMaster {
    /** What `master/state.json` answers. */
    const endpoint: MasterState
    /** What each agent's `state.json` answers, by agent id; an agent
        missing here cannot be reached. */
    const agents: map<string, SlaveState>
    var state: Option<MasterState>
    /** How many times `master/state.json` was requested. */
    ghost var fetches: nat
    var slaves: map<string, MesosSlave>
    var frameworks: map<string, Framework>

    ghost predicate SlaveEntry(id: string, o: MesosSlave)
      reads o
    {
      o.slave.id == id && o.slave in endpoint.slaves && o.reply == AgentReply(agents, id) && o.Valid()
    }

    ghost predicate FrameworkEntry(id: string, o: Framework)
      reads o
    {
      o.framework.id == id && o.framework in AllFrameworks(endpoint) && o.master == this && o.Valid()
    }

    /** The state is fetched at most once and is what the master
        answers; every cached object stands for the entry of its id. */
    ghost predicate Valid()
      reads this, slaves.Values, frameworks.Values
    {
      && (state.Some? ==> state.value == endpoint)
      && fetches <= 1 && (state.None? <==> fetches == 0)
      && (forall id :: id in slaves ==> SlaveEntry(id, slaves[id]))
      && (forall id :: id in frameworks ==> FrameworkEntry(id, frameworks[id]))
    }

    constructor (endpoint: MasterState, agents: map<string, SlaveState>)
      ensures this.endpoint == endpoint && this.agents == agents
      ensures state == None && slaves == map[] && frameworks == map[] && Valid()
    {
      this.endpoint := endpoint;
      this.agents := agents;
      state := None;
      fetches := 0;
      slaves := map[];
      frameworks := map[];
    }

    /** `state()`: the master's state document, requested only when none
        is cached. */
    method State() returns (st: MasterState)
      requires Valid()
      modifies this`state, this`fetches
      ensures Valid()
      ensures st == endpoint && state == Some(endpoint)
      ensures fetches == if old(state).Some? then old(fetches) else old(fetches) + 1
    {
      if state.None? {
        fetches := fetches + 1;
        state := Some(endpoint);
      }
      st := state.value;
    }

    /** `_slave_obj(slave)`: the cached object for the agent's id,
        created and cached only when there is none. */
    method SlaveObj(s: SlaveDict) returns (o: MesosSlave)
      requires Valid() && s in endpoint.slaves
      modifies this`slaves
      ensures Valid()
      ensures s.id in old(slaves) ==> slaves == old(slaves) && o == old(slaves)[s.id]
      ensures s.id !in old(slaves) ==> fresh(o) && o.slave == s && slaves == old(slaves)[s.id := o]
      ensures o.slave.id == s.id && o.reply == AgentReply(agents, s.id)
    {
      if s.id !in slaves {
        var created := new MesosSlave(s, AgentReply(agents, s.id));
        slaves := slaves[s.id := created];
      }
      o := slaves[s.id];
    }

    /** `_framework_obj(framework)`: the cached object for the framework's
        id, created and cached only when there is none. */
    method FrameworkObj(f: FrameworkDict) returns (o: Framework)
      requires Valid() && f in AllFrameworks(endpoint)
      modifies this`frameworks
      ensures Valid()
      ensures f.id in old(frameworks) ==> frameworks == old(frameworks) && o == old(frameworks)[f.id]
      ensures f.id !in old(frameworks) ==> fresh(o) && o.framework == f && o.tasks == map[] && frameworks == old(frameworks)[f.id := o]
      ensures o.framework.id == f.id && o.framework in AllFrameworks(endpoint) && o.master == this
      ensures FrameworksGrow() && TasksGrow()
      ensures forall id, tid :: id in frameworks && tid in frameworks[id].tasks ==>
                id in old(frameworks) && tid in old(frameworks[id].tasks)
    {
      if f.id !in frameworks {
        var created := new Framework(f, this);
        frameworks := frameworks[f.id := created];
      }
      o := frameworks[f.id];
    }

    /** `r` holds, for each agent of `m`, the object cached under its id. */
    ghost predicate SlavesFor(r: seq<MesosSlave>, m: seq<SlaveDict>)
      reads this
    {
      |r| == |m| &&
      forall k :: 0 <= k < |m| ==>
        && m[k].id in slaves && r[k] == slaves[m[k].id] && r[k].slave.id == m[k].id
        && (UniqueSlaveIds(endpoint) ==> r[k].slave == m[k])
    }

    /** The agent cache only grows, and what it gains is new. */
    twostate predicate SlavesGrow()
      reads this
    {
      && (forall id :: id in old(slaves) ==> id in slaves && slaves[id] == old(slaves)[id])
      && (forall id :: id in slaves && id !in old(slaves) ==> fresh(slaves[id]))
    }

    /** `slaves(fltr)`: the objects of the agents whose id contains
        `fltr`, in state order. Cached objects are reused, no cache entry
        changes, and every object added is new. */
    method Slaves(fltr: string) returns (r: seq<MesosSlave>)
      requires Valid()
      modifies this`state, this`fetches, this`slaves
      ensures Valid() && state == Some(endpoint)
      ensures fetches == if old(state).Some? then old(fetches) else old(fetches) + 1
      ensures SlavesGrow()
      ensures SlavesFor(r, SlaveMatches(endpoint.slaves, fltr))
    {
      var st := State();
      r := SlavesIn(st.slaves, fltr);
    }

    /** The loop of `slaves(fltr)` over the given agents of the state. */
    method SlavesIn(ss: seq<SlaveDict>, fltr: string) returns (r: seq<MesosSlave>)
      requires Valid() && forall s :: s in ss ==> s in endpoint.slaves
      modifies this`slaves
      ensures Valid() && SlavesGrow()
      ensures SlavesFor(r, SlaveMatches(ss, fltr))
    {
      r := [];
      var i := 0;
      while i < |ss|
        invariant 0 <= i <= |ss|
        invariant Valid() && SlavesGrow()
        invariant SlavesFor(r, SlaveMatches(ss[..i], fltr))
      {
        r := SlaveStep(r, SlaveMatches(ss[..i], fltr), ss[i], fltr);
        assert ss[..i + 1] == ss[..i] + [ss[i]];
        SlaveMatchesAppend(ss[..i], [ss[i]], fltr);
        i := i + 1;
      }
      assert ss[..i] == ss;
    }

    /** One agent of the loop: its object is added when its id contains
        `fltr`; the objects found so far stay what they were. */
    method SlaveStep(r: seq<MesosSlave>, ghost m: seq<SlaveDict>, s: SlaveDict, fltr: string)
      returns (r': seq<MesosSlave>)
      requires Valid() && s in endpoint.slaves && SlavesFor(r, m)
      modifies this`slaves
      ensures Valid() && SlavesGrow()
      ensures SlavesFor(r', m + SlaveMatches([s], fltr))
    {
      SlaveMatchesSingle(s, fltr);
      if IsSubstring(fltr, s.id) {
        var o := SlaveObj(s);
        if UniqueSlaveIds(endpoint) {
          SameSlaveId(endpoint, o.slave, s);
        }
        r' := r + [o];
      } else {
        assert m + [] == m;
        r' := r;
      }
    }

    /** `slave(fltr)`: the one agent whose id contains `fltr`; otherwise
        the zero/one/many rule's error, the ambiguity message listing
        every matching id. */
    method Slave(fltr: string) returns (r: Result<MesosSlave, Error>)
      requires Valid()
      modifies this`state, this`fetches, this`slaves
      ensures Valid() && state == Some(endpoint)
      ensures fetches == if old(state).Some? then old(fetches) else old(fetches) + 1
      ensures SlavesGrow()
      ensures match SelectSlave(SlaveMatches(endpoint.slaves, fltr), fltr)
              case Failure(e) => r == Failure(e)
              case Success(s) =>
                && r.Success? && s.id in slaves && r.value == slaves[s.id] && r.value.slave.id == s.id
                && r.value.reply == AgentReply(agents, s.id)
    {
      var os := Slaves(fltr);
      ghost var m := SlaveMatches(endpoint.slaves, fltr);
      if |os| == 0 {
        return Failure(SlaveNotFound(fltr));
      } else if |os| > 1 {
        assert SlaveIdsOf(os) == Ids(m, SlaveId);
        return Failure(SlaveAmbiguous(SlaveIdsOf(os)));
      }
      assert SlaveEntry(m[0].id, slaves[m[0].id]);
      return Success(os[0]);
    }

    /** The framework cache only grows, and what it gains is new. */
    twostate predicate FrameworksGrow()
      reads this
    {
      && (forall id :: id in old(frameworks) ==> id in frameworks && frameworks[id] == old(frameworks)[id])
      && (forall id :: id in frameworks && id !in old(frameworks) ==> fresh(frameworks[id]))
    }

    /** A change to one agent object's cached state that keeps it valid
        keeps the master valid. */
    twostate lemma SlaveStateChanged(so: MesosSlave)
      requires old(Valid()) && frameworks == old(frameworks) && slaves == old(slaves)
      requires state == old(state) && fetches == old(fetches)
      requires so.slave.id in slaves && slaves[so.slave.id] == so && so.Valid()
      requires forall o: MesosSlave :: o in slaves.Values && o != so ==> unchanged(o)
      requires forall o: Framework :: o in frameworks.Values ==> unchanged(o)
      ensures Valid()
    {
      forall id | id in slaves ensures SlaveEntry(id, slaves[id]) {
        assert slaves[id] in slaves.Values;
        assert old(SlaveEntry(id, slaves[id]));
      }
      forall id | id in frameworks ensures FrameworkEntry(id, frameworks[id]) {
        assert frameworks[id] in frameworks.Values;
        assert old(FrameworkEntry(id, frameworks[id]));
      }
    }

    /** Changing one framework object's task cache by insertion keeps
        the master valid and its caches growing. */
    twostate lemma FrameworkTaskInserted(fo: Framework)
      requires old(Valid()) && frameworks == old(frameworks) && slaves == old(slaves)
      requires state == old(state) && fetches == old(fetches)
      requires fo.framework.id in frameworks && frameworks[fo.framework.id] == fo && fo.Valid()
      requires forall tid :: tid in old(fo.tasks) ==> tid in fo.tasks && fo.tasks[tid] == old(fo.tasks[tid])
      requires forall o: MesosSlave :: o in slaves.Values ==> unchanged(o)
      requires forall o: Framework :: o in frameworks.Values && o != fo ==> unchanged(o)
      ensures Valid()
    {
      forall id | id in slaves ensures SlaveEntry(id, slaves[id]) {
        assert slaves[id] in slaves.Values;
        assert old(SlaveEntry(id, slaves[id]));
      }
      forall id | id in frameworks ensures FrameworkEntry(id, frameworks[id]) {
        assert frameworks[id] in frameworks.Values;
        if frameworks[id] != fo {
          assert old(FrameworkEntry(id, frameworks[id]));
        }
      }
    }

    /** Every task object cached before is still cached, under the same
        framework and task ids. */
    twostate predicate TasksGrow()
      reads this, frameworks.Values
    {
      forall id, tid :: id in old(frameworks) && tid in old(frameworks[id].tasks) ==>
        id in frameworks && tid in frameworks[id].tasks && frameworks[id].tasks[tid] == old(frameworks[id].tasks[tid])
    }

    /** `r` holds, for each match of `m`, the task object cached under
        the task's id by the object of the framework it was found in. */
    ghost predicate Cached(r: seq<Task>, m: seq<(string, TaskDict)>)
      reads this, frameworks.Values
    {
      |r| == |m| &&
      forall k :: 0 <= k < |m| ==>
        m[k].0 in frameworks && m[k].1.id in frameworks[m[k].0].tasks && r[k] == frameworks[m[k].0].tasks[m[k].1.id]
    }

    lemma CachedAppend(r1: seq<Task>, m1: seq<(string, TaskDict)>, r2: seq<Task>, m2: seq<(string, TaskDict)>)
      requires Cached(r1, m1) && Cached(r2, m2)
      ensures Cached(r1 + r2, m1 + m2)
    {
    }

    /** `self._framework_obj(framework).task(task['id'])` for a task of a
        framework of the state: the object cached under the task's id by
        the framework's object. Nothing cached before changes, and the
        only entry that can be added is that one. */
    method TaskOf(f: FrameworkDict, t: TaskDict) returns (o: Task)
      requires Valid() && WellFormed(endpoint)
      requires f in AllFrameworks(endpoint) && t in Merge(f.TaskLists(), TASK_KEYS)
      modifies this`frameworks, frameworks.Values
      ensures Valid() && FrameworksGrow() && TasksGrow()
      ensures o.task == t
      ensures f.id in frameworks && t.id in frameworks[f.id].tasks && o == frameworks[f.id].tasks[t.id]
      ensures forall id, tid :: id in frameworks && tid in frameworks[id].tasks ==>
                (id in old(frameworks) && tid in old(frameworks[id].tasks)) || (id == f.id && tid == t.id)
    {
      var fo := FrameworkObj(f);
      SameFrameworkId(endpoint, fo.framework, f);
      label mid:
      o := CachedTask(fo, t);
      forall id, tid | id in old(frameworks) && tid in old(frameworks[id].tasks)
        ensures id in frameworks && tid in frameworks[id].tasks
        ensures frameworks[id].tasks[tid] == old(frameworks[id].tasks[tid])
      {
        assert old@mid(frameworks[id].tasks[tid]) == old(frameworks[id].tasks[tid]);
      }
    }

    /** The task step of `TaskOf`: `task(task['id'])` on a cached
        framework object finds `t` and caches its object there. */
    method CachedTask(fo: Framework, t: TaskDict) returns (o: Task)
      requires Valid() && fo.framework.id in frameworks && frameworks[fo.framework.id] == fo
      requires t in Merge(fo.framework.TaskLists(), TASK_KEYS) && UniqueTaskIds(Merge(fo.framework.TaskLists(), TASK_KEYS))
      modifies fo`tasks
      ensures Valid() && TasksGrow()
      ensures o.task == t && t.id in fo.tasks && o == fo.tasks[t.id]
      ensures forall id, tid :: id in frameworks && tid in frameworks[id].tasks ==>
                tid in old(frameworks[id].tasks) || (id == fo.framework.id && tid == t.id)
    {
      ghost var merged := Merge(fo.framework.TaskLists(), TASK_KEYS);
      assert FirstWithId(merged, t.id) == Some(t);
      var found := fo.FindTask(t.id);
      o := found.value;
      FrameworkTaskInserted(fo);
      forall id, tid | id in frameworks && tid in frameworks[id].tasks
        ensures tid in old(frameworks[id].tasks) || (id == fo.framework.id && tid == t.id)
      {
        assert old(FrameworkEntry(id, frameworks[id]));
      }
    }

    /** The inner loop of `tasks`: the matches of one framework. */
    method FrameworkTasks(f: FrameworkDict, completed: bool, fltr: string, glob: (string, string) -> bool)
      returns (r: seq<Task>)
      requires Valid() && WellFormed(endpoint) && f in AllFrameworks(endpoint)
      modifies this`frameworks, frameworks.Values
      ensures Valid() && FrameworksGrow() && TasksGrow()
      ensures Answers(r, FrameworkMatches(f, completed, fltr, glob))
      ensures Cached(r, FrameworkMatches(f, completed, fltr, glob))
    {
      var ts := Merge(f.TaskLists(), TaskKeys(completed));
      r := [];
      var j := 0;
      while j < |ts|
        invariant 0 <= j <= |ts|
        invariant Valid() && FrameworksGrow() && TasksGrow()
        invariant Answers(r, FrameworkTaskMatches(ts[..j], f.id, fltr, glob))
        invariant Cached(r, FrameworkTaskMatches(ts[..j], f.id, fltr, glob))
      {
        var more := TaskStep(f, completed, fltr, glob, ts[j]);
        AnswersSnoc(r, more, ts, j, f.id, fltr, glob);
        MatchesSnoc(ts, j, f.id, fltr, glob);
        CachedAppend(r, FrameworkTaskMatches(ts[..j], f.id, fltr, glob), more, FrameworkTaskMatches([ts[j]], f.id, fltr, glob));
        r := r + more;
        j := j + 1;
      }
      assert ts[..j] == ts;
    }

    /** One task of the inner loop: its object when the filter keeps it. */
    method TaskStep(f: FrameworkDict, completed: bool, fltr: string, glob: (string, string) -> bool, t: TaskDict)
      returns (more: seq<Task>)
      requires Valid() && WellFormed(endpoint) && f in AllFrameworks(endpoint)
      requires t in Merge(f.TaskLists(), TaskKeys(completed))
      modifies this`frameworks, frameworks.Values
      ensures Valid() && FrameworksGrow() && TasksGrow()
      ensures Answers(more, FrameworkTaskMatches([t], f.id, fltr, glob))
      ensures Cached(more, FrameworkTaskMatches([t], f.id, fltr, glob))
    {
      assert [t][1..] == [];
      if TaskSelected(t.id, fltr, glob) {
        TaskKeysInAll(f, completed, t);
        var o := TaskOf(f, t);
        more := [o];
      } else {
        more := [];
      }
    }

    /** `tasks(fltr, completed)` with the active filter given as
        `inactive`: for every task of the chosen list of every yielded
        framework whose id contains `fltr` or matches it as a glob, the
        cached task object, in state order. */
    method Tasks(fltr: string, completed: bool, inactive: bool, glob: (string, string) -> bool)
      returns (r: seq<Task>)
      requires Valid() && WellFormed(endpoint)
      modifies this`state, this`fetches, this`frameworks, frameworks.Values
      ensures Valid() && state == Some(endpoint) && slaves == old(slaves)
      ensures fetches == if old(state).Some? then old(fetches) else old(fetches) + 1
      ensures FrameworksGrow() && TasksGrow()
      ensures Answers(r, TaskMatches(endpoint, inactive, completed, fltr, glob))
      ensures Cached(r, TaskMatches(endpoint, inactive, completed, fltr, glob))
    {
      var st := State();
      var fs := FrameworkDicts(st, inactive, false);
      forall f | f in fs ensures f in AllFrameworks(endpoint) {
        FrameworkDictsInAll(st, inactive, false, f);
      }
      r := TasksIn(fs, completed, fltr, glob);
    }

    /** The outer loop of `tasks`: the matches of each framework in turn. */
    method TasksIn(fs: seq<FrameworkDict>, completed: bool, fltr: string, glob: (string, string) -> bool)
      returns (r: seq<Task>)
      requires Valid() && WellFormed(endpoint)
      requires forall f :: f in fs ==> f in AllFrameworks(endpoint)
      modifies this`frameworks, frameworks.Values
      ensures Valid() && FrameworksGrow() && TasksGrow()
      ensures Answers(r, TaskMatchesIn(fs, completed, fltr, glob))
      ensures Cached(r, TaskMatchesIn(fs, completed, fltr, glob))
    {
      r := [];
      var i := 0;
      while i < |fs|
        invariant 0 <= i <= |fs|
        invariant Valid() && FrameworksGrow() && TasksGrow()
        invariant Answers(r, TaskMatchesIn(fs[..i], completed, fltr, glob))
        invariant Cached(r, TaskMatchesIn(fs[..i], completed, fltr, glob))
      {
        var more := FrameworkTasks(fs[i], completed, fltr, glob);
        TaskMatchesAnswered(r, more, fs, i, completed, fltr, glob);
        TaskMatchesInSnoc(fs, i, completed, fltr, glob);
        CachedAppend(r, TaskMatchesIn(fs[..i], completed, fltr, glob), more, FrameworkMatches(fs[i], completed, fltr, glob));
        r := r + more;
        i := i + 1;
      }
      assert fs[..i] == fs;
    }

    /** `task(fltr)`: the one task `tasks(fltr)` finds (active
        frameworks, active tasks); otherwise the zero/one/many rule's
        error, the ambiguity message listing every matching id. */
    method FindTask(fltr: string, glob: (string, string) -> bool) returns (r: Result<Task, Error>)
      requires Valid() && WellFormed(endpoint)
      modifies this`state, this`fetches, this`frameworks, frameworks.Values
      ensures Valid() && state == Some(endpoint) && slaves == old(slaves) && FrameworksGrow() && TasksGrow()
      ensures match SelectTask(TasksOf(TaskMatches(endpoint, false, false, fltr, glob)), fltr)
              case Failure(e) => r == Failure(e)
              case Success(t) =>
                r.Success? && r.value.task == t && Cached([r.value], TaskMatches(endpoint, false, false, fltr, glob))
    {
      var ts := Tasks(fltr, false, false, glob);
      ghost var m := TasksOf(TaskMatches(endpoint, false, false, fltr, glob));
      if |ts| == 0 {
        return Failure(TaskNotFound(fltr));
      } else if |ts| > 1 {
        assert TaskIdsOf(ts) == Ids(m, TaskId);
        return Failure(TaskAmbiguous(TaskIdsOf(ts)));
      }
      assert [ts[0]] == ts;
      return Success(ts[0]);
    }

    /** `framework(framework_id)`: the object of the first framework,
        active or not, with that id; `None` when there is none. */
    method FindFramework(frameworkId: string) returns (r: Option<Framework>)
      requires Valid()
      modifies this`state, this`fetches, this`frameworks
      ensures Valid() && state == Some(endpoint) && FrameworksGrow()
      ensures match FirstFrameworkWithId(FrameworkDicts(endpoint, true, false), frameworkId)
              case None => r == None && frameworks == old(frameworks)
              case Some(f) =>
                && r.Some? && f.id in frameworks && r.value == frameworks[f.id]
                && r.value.framework.id == frameworkId
                && (WellFormed(endpoint) ==> r.value.framework == f)
    {
      var st := State();
      match FirstFrameworkWithId(FrameworkDicts(st, true, false), frameworkId)
      case None =>
        return None;
      case Some(f) =>
        FrameworkDictsInAll(st, true, false, f);
        var o := FrameworkObj(f);
        if WellFormed(endpoint) {
          SameFrameworkId(endpoint, o.framework, f);
        }
        return Some(o);
    }
  }
}
