/** Batching refines running the tasks one by one: over all batch sizes and all orders in which the batches
    complete (internal/controller/task.go, internal/controller/jobs.go). */
module TaskRuns {
  import opened Text
  import opened TaskBatches

  /** While tasks are submitted, batches already sent complete in any order. */
  datatype Action = Submit(q: Request) | Finish(k: nat, ok: bool)

  /** The backend, and which batches have completed, successfully or not. */
  datatype Run = Run(b: Backend, finished: map<nat, bool>)

  predicate Enabled(r: Run, a: Action) {
    a.Finish? ==> a.k < |r.b.sent| && a.k !in r.finished
  }

  function UpdateFor(r: Run, k: nat, ok: bool, script: Script): Update
    requires k < |r.b.sent|
  {
    if ok then Complete(Replies(PayloadOf(r.b.sent[k]), script)) else Unsuccessful
  }

  function Do(r: Run, a: Action, script: Script): Run
    requires r.b.size > 0 && Enabled(r, a)
  {
    match a
    case Submit(q) => r.(b := Add(r.b, TaskFor(q)))
    case Finish(k, ok) => r.(b := Handle(r.b, UpdateFor(r, k, ok, script)), finished := r.finished[k := ok])
  }

  predicate CanRun(r: Run, actions: seq<Action>, script: Script)
    requires r.b.size > 0
    decreases |actions|
  {
    actions == [] || (
      Enabled(r, actions[0])
      && Do(r, actions[0], script).b.size == r.b.size
      && CanRun(Do(r, actions[0], script), actions[1..], script)
    )
  }

  function After(r: Run, actions: seq<Action>, script: Script): Run
    requires r.b.size > 0 && CanRun(r, actions, script)
    decreases |actions|
  {
    if actions == [] then r else After(Do(r, actions[0], script), actions[1..], script)
  }

  function Submitted(actions: seq<Action>): seq<Task>
    decreases |actions|
  {
    if actions == [] then []
    else if actions[0].Submit? then [TaskFor(actions[0].q)] + Submitted(actions[1..])
    else Submitted(actions[1..])
  }

  function Requests(actions: seq<Action>): seq<Request>
    decreases |actions|
  {
    if actions == [] then []
    else if actions[0].Submit? then [actions[0].q] + Requests(actions[1..])
    else Requests(actions[1..])
  }

  /** The tasks are the requests in order; one with a file for its output asks for the output. */
  lemma {:induction false} SubmittedAre(actions: seq<Action>)
    ensures var qs, tasks := Requests(actions), Submitted(actions);
            |tasks| == |qs|
            && forall i | 0 <= i < |qs| ::
                 var q := qs[i];
                 var asked := q.wantsOutput || q.stdoutFile != "" || q.stderrFile != "";
                 tasks[i] == Task(q.id, q.args, asked, q.stdoutFile, q.stderrFile)
    decreases |actions|
  {
    if actions != [] {
      SubmittedAre(actions[1..]);
    }
  }

  // ---------------------------------------------------------------- the unbatched run

  predicate DistinctIds(tasks: seq<Task>) {
    forall i, j | 0 <= i < j < |tasks| :: tasks[i].id != tasks[j].id
  }

  /** What a task run by itself gives: its exit code, and its standard output if this was asked for. */
  function Alone(t: Task, script: Script): TaskResult {
    TaskResult(script(t).exitCode, if t.wantsOutput then script(t).stdout else "", "")
  }

  /** Each task run by itself. */
  function ResultsOf(tasks: seq<Task>, script: Script): map<TaskId, TaskResult> {
    if tasks == [] then map[]
    else
      var t := tasks[|tasks| - 1];
      ResultsOf(tasks[..|tasks| - 1], script)[t.id := Alone(t, script)]
  }

  lemma {:induction false} ResultsAt(tasks: seq<Task>, script: Script, id: TaskId)
    ensures id in ResultsOf(tasks, script) <==> exists t :: t in tasks && t.id == id
    ensures id in ResultsOf(tasks, script) ==>
              exists t :: t in tasks && t.id == id && ResultsOf(tasks, script)[id] == Alone(t, script)
  {
    if tasks != [] {
      ResultsAt(tasks[..|tasks| - 1], script, id);
      assert tasks == tasks[..|tasks| - 1] + [tasks[|tasks| - 1]];
    }
  }

  /** Part of the tasks gives the same results for these tasks. */
  lemma ResultsOfPart(part: seq<Task>, tasks: seq<Task>, script: Script, id: TaskId)
    requires DistinctIds(tasks) && (forall t | t in part :: t in tasks) && id in ResultsOf(part, script)
    ensures id in ResultsOf(tasks, script) && ResultsOf(tasks, script)[id] == ResultsOf(part, script)[id]
  {
    ResultsAt(part, script, id);
    ResultsAt(tasks, script, id);
    var t :| t in part && t.id == id && ResultsOf(part, script)[id] == Alone(t, script);
    var u :| u in tasks && u.id == id && ResultsOf(tasks, script)[id] == Alone(u, script);
    assert t in tasks;
  }

  /** What the worker sends back for a batch decodes to the results of its tasks. */
  lemma {:induction false} RepliesDecode(batch: seq<Task>, script: Script)
    ensures var replies := Replies(PayloadOf(batch), script);
            && replies.Keys == ResultsOf(batch, script).Keys
            && forall id | id in replies :: Decoded(replies[id]) == ResultsOf(batch, script)[id]
  {
    if batch != [] {
      RepliesDecode(batch[..|batch| - 1], script);
    }
  }

  lemma {:induction false} MergedAt(
    results: map<TaskId, TaskResult>, tasks: seq<Task>, replies: map<TaskId, Reply>, id: TaskId)
    ensures var m := Merged(results, tasks, replies);
            var hit := id in replies && exists t :: t in tasks && t.id == id;
            && (id in m <==> hit || id in results)
            && (id in m ==> m[id] == if hit then Decoded(replies[id]) else results[id])
    decreases |tasks|
  {
    if tasks != [] {
      var t := tasks[0];
      var results' := if t.id in replies then results[t.id := Decoded(replies[t.id])] else results;
      MergedAt(results', tasks[1..], replies, id);
      assert tasks == [t] + tasks[1..];
    }
  }

  // ---------------------------------------------------------------- the invariant

  function Concat(batches: seq<seq<Task>>): seq<Task> {
    if batches == [] then [] else Concat(batches[..|batches| - 1]) + batches[|batches| - 1]
  }

  predicate Full(batches: seq<seq<Task>>, size: nat) {
    forall k | 0 <= k < |batches| :: |batches[k]| == size
  }

  /** The results are those of the tasks in the batches that completed successfully. */
  ghost predicate Collected(r: Run, tasks: seq<Task>, script: Script) {
    && (forall k | k in r.finished :: k < |r.b.sent|)
    && (forall id | id in r.b.results ::
          id in ResultsOf(tasks, script) && r.b.results[id] == ResultsOf(tasks, script)[id])
    && (forall id :: id in r.b.results <==> Delivered(r, id))
  }

  ghost predicate Delivered(r: Run, id: TaskId) {
    exists k :: k in r.finished && k < |r.b.sent| && r.finished[k] && id in Ids(r.b.sent[k])
  }

  lemma {:induction false} InConcat(batches: seq<seq<Task>>, k: nat, t: Task)
    requires k < |batches| && t in batches[k]
    ensures t in Concat(batches)
  {
    if k < |batches| - 1 {
      InConcat(batches[..|batches| - 1], k, t);
    }
  }

  lemma IdsOfResults(batch: seq<Task>, script: Script)
    ensures ResultsOf(batch, script).Keys == Ids(batch)
  {
    forall id ensures id in ResultsOf(batch, script).Keys <==> id in Ids(batch) {
      ResultsAt(batch, script, id);
    }
  }

  /** What one successful batch adds. */
  lemma HandleAdds(r: Run, k: nat, tasks: seq<Task>, script: Script, id: TaskId)
    requires k < |r.b.sent| && DistinctIds(tasks) && r.b.tasks == Concat(r.b.sent)
    requires forall t | t in r.b.tasks :: t in tasks
    ensures var results' := Handle(r.b, UpdateFor(r, k, true, script)).results;
            && (id in results' <==> id in r.b.results || id in Ids(r.b.sent[k]))
            && (id in Ids(r.b.sent[k]) ==>
                  id in ResultsOf(tasks, script) && results'[id] == ResultsOf(tasks, script)[id])
            && (id in results' && id !in Ids(r.b.sent[k]) ==> results'[id] == r.b.results[id])
  {
    var batch := r.b.sent[k];
    var replies := Replies(PayloadOf(batch), script);
    MergedAt(r.b.results, r.b.tasks, replies, id);
    RepliesDecode(batch, script);
    IdsOfResults(batch, script);
    if id in Ids(batch) {
      var t :| t in batch && t.id == id;
      InConcat(r.b.sent, k, t);
      forall u | u in batch ensures u in tasks {
        InConcat(r.b.sent, k, u);
      }
      ResultsOfPart(batch, tasks, script, id);
    }
  }

  lemma CollectedAfterFinish(r: Run, k: nat, ok: bool, tasks: seq<Task>, script: Script)
    requires r.b.size > 0 && Enabled(r, Finish(k, ok)) && Collected(r, tasks, script) && DistinctIds(tasks)
    requires r.b.tasks == Concat(r.b.sent) && forall t | t in r.b.tasks :: t in tasks
    ensures Collected(Do(r, Finish(k, ok), script), tasks, script)
  {
    var r' := Do(r, Finish(k, ok), script);
    if ok {
      forall id
        ensures id in r'.b.results <==> id in r.b.results || id in Ids(r.b.sent[k])
        ensures id in r'.b.results ==>
                  id in ResultsOf(tasks, script) && r'.b.results[id] == ResultsOf(tasks, script)[id]
      {
        HandleAdds(r, k, tasks, script, id);
      }
    }
    forall id ensures Delivered(r', id) <==> Delivered(r, id) || (ok && id in Ids(r.b.sent[k])) {
    }
  }

  /** Sending a batch does not touch the results. */
  lemma CollectedAfterSend(r: Run, b: Backend, tasks: seq<Task>, script: Script)
    requires Collected(r, tasks, script) && b.results == r.b.results
    requires |r.b.sent| <= |b.sent| && b.sent[..|r.b.sent|] == r.b.sent
    ensures Collected(r.(b := b), tasks, script)
  {
    forall id ensures Delivered(r.(b := b), id) <==> Delivered(r, id) {
      if Delivered(r, id) {
        var k :| k in r.finished && k < |r.b.sent| && r.finished[k] && id in Ids(r.b.sent[k]);
        assert b.sent[k] == b.sent[..|r.b.sent|][k] == r.b.sent[k];
      }
      if Delivered(r.(b := b), id) {
        var k :| k in r.finished && k < |b.sent| && r.finished[k] && id in Ids(b.sent[k]);
        assert b.sent[k] == b.sent[..|r.b.sent|][k] == r.b.sent[k];
      }
    }
  }

  predicate Batched(b: Backend, submitted: seq<Task>) {
    && 0 < b.size && |b.batch| < b.size
    && b.tasks == Concat(b.sent) && b.tasks + b.batch == submitted && Full(b.sent, b.size)
  }

  lemma SendExtends(b: Backend)
    ensures |b.sent| <= |Send(b).sent| && Send(b).sent[..|b.sent|] == b.sent && Send(b).results == b.results
  {
  }

  lemma OneMoreBatch(sent: seq<seq<Task>>, batch: seq<Task>, size: nat)
    requires Full(sent, size) && |batch| == size
    ensures Full(sent + [batch], size) && Concat(sent + [batch]) == Concat(sent) + batch
  {
    assert (sent + [batch])[..|sent|] == sent;
  }

  lemma BatchedAfterSubmit(b: Backend, submitted: seq<Task>, t: Task)
    requires Batched(b, submitted)
    ensures Batched(Add(b, t), submitted + [t])
  {
    var b1 := b.(batch := b.batch + [t]);
    SeqAssoc(b.tasks, b.batch, [t]);
    FullExactly(|b1.batch|, b.size);
    if |b1.batch| == b.size {
      SendsAll(b1);
      OneMoreBatch(b.sent, b1.batch, b.size);
      assert (b.tasks + b1.batch) + [] == submitted + [t];
    }
  }

  ghost predicate Holds(r: Run, submitted: seq<Task>, tasks: seq<Task>, script: Script) {
    Batched(r.b, submitted) && Collected(r, tasks, script) && submitted <= tasks
  }

  lemma {:induction false} HoldsAfter(r: Run, actions: seq<Action>, submitted: seq<Task>, script: Script)
    requires r.b.size > 0 && CanRun(r, actions, script)
    requires var tasks := submitted + Submitted(actions);
             DistinctIds(tasks) && Holds(r, submitted, tasks, script)
    ensures var tasks := submitted + Submitted(actions);
            Holds(After(r, actions, script), tasks, tasks, script) && After(r, actions, script).b.size == r.b.size
    decreases |actions|
  {
    var tasks := submitted + Submitted(actions);
    if actions == [] {
      assert tasks == submitted;
    } else {
      var r' := Do(r, actions[0], script);
      match actions[0]
      case Submit(q) =>
        var t := TaskFor(q);
        BatchedAfterSubmit(r.b, submitted, t);
        SendExtends(r.b.(batch := r.b.batch + [t]));
        CollectedAfterSend(r, r'.b, tasks, script);
        assert submitted + [t] + Submitted(actions[1..]) == tasks;
        HoldsAfter(r', actions[1..], submitted + [t], script);
      case Finish(k, ok) =>
        assert forall u | u in r.b.tasks :: u in submitted;
        assert forall u | u in submitted :: u in tasks;
        CollectedAfterFinish(r, k, ok, tasks, script);
        HoldsAfter(r', actions[1..], submitted, script);
    }
  }

  // ---------------------------------------------------------------- after the last batch has been sent

  predicate OnlyFinishes(actions: seq<Action>) {
    forall a | a in actions :: a.Finish?
  }

  lemma {:induction false} CollectedAfterFinishes(r: Run, actions: seq<Action>, tasks: seq<Task>, script: Script)
    requires r.b.size > 0 && CanRun(r, actions, script) && OnlyFinishes(actions) && DistinctIds(tasks)
    requires Collected(r, tasks, script) && r.b.tasks == Concat(r.b.sent) == tasks
    ensures Collected(After(r, actions, script), tasks, script)
    ensures After(r, actions, script).b.sent == r.b.sent
    decreases |actions|
  {
    if actions != [] {
      assert actions[0].Finish?;
      CollectedAfterFinish(r, actions[0].k, actions[0].ok, tasks, script);
      CollectedAfterFinishes(Do(r, actions[0], script), actions[1..], tasks, script);
    }
  }

  /** A whole run: tasks are submitted while batches complete, the rest is sent, the other batches complete. */
  predicate WholeRun(size: nat, actions: seq<Action>, rest: seq<Action>, script: Script) {
    && size > 0
    && var first := Run(Fresh(size), map[]);
       CanRun(first, actions, script)
       && var last := After(first, actions, script);
          last.b.size == size && OnlyFinishes(rest) && CanRun(last.(b := Send(last.b)), rest, script)
  }

  function End(size: nat, actions: seq<Action>, rest: seq<Action>, script: Script): Run
    requires WholeRun(size, actions, rest, script)
  {
    var last := After(Run(Fresh(size), map[]), actions, script);
    After(last.(b := Send(last.b)), rest, script)
  }

  /** The batches are the submitted tasks cut into pieces of the batch size, the last possibly smaller, and the
      results are those of the tasks whose batches completed successfully, as if each task had run alone. */
  lemma {:induction false} BatchingRefines(size: nat, actions: seq<Action>, rest: seq<Action>, script: Script)
    requires WholeRun(size, actions, rest, script) && DistinctIds(Submitted(actions))
    ensures var tasks, end := Submitted(actions), End(size, actions, rest, script);
            && Concat(end.b.sent) == tasks
            && (forall k | 0 <= k < |end.b.sent| ::
                  if k < |end.b.sent| - 1 then |end.b.sent[k]| == size else 0 < |end.b.sent[k]| <= size)
            && Collected(end, tasks, script)
  {
    var tasks := Submitted(actions);
    var first := Run(Fresh(size), map[]);
    assert [] + Submitted(actions) == tasks;
    assert first.b.tasks + first.b.batch == [];
    assert Collected(first, tasks, script);
    HoldsAfter(first, actions, [], script);
    var last := After(first, actions, script);
    SendExtends(last.b);
    CollectedAfterSend(last, Send(last.b), tasks, script);
    CollectedAfterFinishes(last.(b := Send(last.b)), rest, tasks, script);
  }

  ghost predicate AllSucceeded(r: Run) {
    forall k | 0 <= k < |r.b.sent| :: k in r.finished && r.finished[k]
  }

  lemma {:induction false} SomeBatchOf(batches: seq<seq<Task>>, t: Task) returns (k: nat)
    requires t in Concat(batches)
    ensures k < |batches| && t in batches[k]
  {
    if t in batches[|batches| - 1] {
      k := |batches| - 1;
    } else {
      k := SomeBatchOf(batches[..|batches| - 1], t);
    }
  }

  lemma ExitCodeUnique(results: map<TaskId, TaskResult>, a: int, b: int)
    requires IsExitCode(results, a) && IsExitCode(results, b) && a >= 0 && b >= 0
    ensures a == b
  {
  }

  /** A task identifier lies in one batch only. */
  lemma {:induction false} InOneBatch(batches: seq<seq<Task>>, i: nat, t: Task, j: nat, u: Task)
    requires DistinctIds(Concat(batches)) && i < |batches| && j < |batches|
    requires t in batches[i] && u in batches[j] && t.id == u.id
    ensures i == j
  {
    var n := |batches| - 1;
    var front, last := Concat(batches[..n]), batches[n];
    assert forall a | 0 <= a < |front| :: Concat(batches)[a] == front[a];
    if i < n && j < n {
      InOneBatch(batches[..n], i, t, j, u);
    } else if i < n {
      InConcat(batches[..n], i, t);
      ApartById(front, last, t, u);
    } else if j < n {
      InConcat(batches[..n], j, u);
      ApartById(front, last, u, t);
    }
  }

  lemma ApartById(front: seq<Task>, last: seq<Task>, t: Task, u: Task)
    requires DistinctIds(front + last) && t in front && u in last
    ensures t.id != u.id
  {
    var a :| 0 <= a < |front| && front[a] == t;
    var b :| 0 <= b < |last| && last[b] == u;
    assert (front + last)[a] == t && (front + last)[|front| + b] == u;
  }

  /** The results, and so the exit code, are those of running the submitted tasks one by one, for every batch
      size and order of completion, exactly if every batch succeeds. */
  lemma {:induction false} BatchingInvisible(size: nat, actions: seq<Action>, rest: seq<Action>, script: Script)
    requires WholeRun(size, actions, rest, script) && DistinctIds(Submitted(actions))
    ensures End(size, actions, rest, script).b.results == ResultsOf(Submitted(actions), script)
            <==> AllSucceeded(End(size, actions, rest, script))
  {
    var tasks, end := Submitted(actions), End(size, actions, rest, script);
    BatchingRefines(size, actions, rest, script);
    if AllSucceeded(end) {
      AllFound(end, tasks, script);
    } else {
      var k :| 0 <= k < |end.b.sent| && !(k in end.finished && end.finished[k]);
      MissingBatch(end, k, tasks, script);
    }
  }

  /** At the end of a run the controller holds what the script left for every submitted task exactly if every
      batch succeeded and no task had output that is not sent back. */
  lemma {:induction false} ScriptResultsExactly(size: nat, actions: seq<Action>, rest: seq<Action>, script: Script)
    requires WholeRun(size, actions, rest, script) && DistinctIds(Submitted(actions))
    ensures (forall t | t in Submitted(actions) ::
               var results, d := End(size, actions, rest, script).b.results, script(t);
               t.id in results && results[t.id] == TaskResult(d.exitCode, d.stdout, d.stderr))
            <==> && AllSucceeded(End(size, actions, rest, script))
                 && forall t | t in Submitted(actions) ::
                      script(t).stderr == "" && (t.wantsOutput || script(t).stdout == "")
  {
    var tasks, end := Submitted(actions), End(size, actions, rest, script);
    BatchingRefines(size, actions, rest, script);
    BatchingInvisible(size, actions, rest, script);
    forall t | t in tasks
      ensures t.id in ResultsOf(tasks, script) && ResultsOf(tasks, script)[t.id] == Alone(t, script)
    {
      ResultsAt(tasks, script, t.id);
    }
    forall t | t in tasks
      ensures Arrives(t, script(t)) <==> script(t).stderr == "" && (t.wantsOutput || script(t).stdout == "")
    {
      ArrivesExactly(t, script(t));
    }
    if forall t | t in tasks :: t.id in end.b.results {
      forall id ensures id in end.b.results <==> id in ResultsOf(tasks, script) {
        ResultsAt(tasks, script, id);
      }
      assert end.b.results == ResultsOf(tasks, script);
    }
  }

  lemma AllFound(end: Run, tasks: seq<Task>, script: Script)
    requires Concat(end.b.sent) == tasks && Collected(end, tasks, script) && AllSucceeded(end)
    ensures end.b.results == ResultsOf(tasks, script)
  {
    forall id ensures id in end.b.results <==> id in ResultsOf(tasks, script) {
      if id in ResultsOf(tasks, script) {
        ResultsAt(tasks, script, id);
        var t :| t in tasks && t.id == id;
        var k := SomeBatchOf(end.b.sent, t);
        assert Delivered(end, id);
      }
    }
  }

  /** The results of a batch that did not succeed are missing. */
  lemma MissingBatch(end: Run, k: nat, tasks: seq<Task>, script: Script)
    requires Concat(end.b.sent) == tasks && DistinctIds(tasks) && Collected(end, tasks, script)
    requires k < |end.b.sent| && end.b.sent[k] != [] && !(k in end.finished && end.finished[k])
    ensures end.b.results != ResultsOf(tasks, script)
  {
    var t := end.b.sent[k][0];
    InConcat(end.b.sent, k, t);
    ResultsAt(tasks, script, t.id);
    if t.id in end.b.results {
      var j :| j in end.finished && j < |end.b.sent| && end.finished[j] && t.id in Ids(end.b.sent[j]);
      var u :| u in end.b.sent[j] && u.id == t.id;
      InOneBatch(end.b.sent, k, t, j, u);
    }
  }

  /** The exit code of the job is that of running the tasks one by one exactly if that is 0 or a task of a
      successful batch has it: a batch that fails is only noticed if it holds all the largest codes. */
  lemma {:induction false} ExitCodeExactly(
    size: nat, actions: seq<Action>, rest: seq<Action>, script: Script, all: int, code: int)
    requires WholeRun(size, actions, rest, script) && DistinctIds(Submitted(actions))
    requires IsExitCode(ResultsOf(Submitted(actions), script), all)
    requires IsExitCode(End(size, actions, rest, script).b.results, code)
    ensures code == all
            <==> all == 0 || exists t :: && t in Submitted(actions) && script(t).exitCode == all
                                         && Delivered(End(size, actions, rest, script), t.id)
  {
    var tasks, end := Submitted(actions), End(size, actions, rest, script);
    BatchingRefines(size, actions, rest, script);
    forall t | t in tasks
      ensures t.id in ResultsOf(tasks, script) && ResultsOf(tasks, script)[t.id].exitCode == script(t).exitCode
    {
      ResultsAt(tasks, script, t.id);
    }
    forall id | id in end.b.results
      ensures exists t :: t in tasks && t.id == id && end.b.results[id].exitCode == script(t).exitCode
    {
      ResultsAt(tasks, script, id);
    }
  }

  /** A batch that fails is not noticed: if none succeeds there are no results and the exit code is 0. */
  lemma FailuresAreSilent(size: nat, actions: seq<Action>, rest: seq<Action>, script: Script)
    requires WholeRun(size, actions, rest, script) && DistinctIds(Submitted(actions))
    requires var end := End(size, actions, rest, script);
             forall k | k in end.finished :: !end.finished[k]
    ensures var results := End(size, actions, rest, script).b.results;
            results == map[] && IsExitCode(results, 0)
  {
    BatchingRefines(size, actions, rest, script);
    var end := End(size, actions, rest, script);
    forall id ensures id !in end.b.results {
      assert !Delivered(end, id);
    }
  }
}
