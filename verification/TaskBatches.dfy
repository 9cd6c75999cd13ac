/** Tasks of a client job, sent to the worker in batches (internal/controller/task.go,
    worker/worker/client/gearman.py). */
module TaskBatches {
  import opened Text

  type TaskId = nat

  datatype Task = Task(id: TaskId, args: string, wantsOutput: bool, stdoutFile: string, stderrFile: string)

  /** What a job submits; the identifier is the one the task is given. */
  datatype Request = Request(id: TaskId, args: string, wantsOutput: bool, stdoutFile: string, stderrFile: string)

  /** Output is asked for by whoever submits the task, or because there is a file to write it to. */
  function TaskFor(q: Request): Task {
    Task(q.id, q.args, q.wantsOutput || q.stdoutFile != "" || q.stderrFile != "", q.stdoutFile, q.stderrFile)
  }

  /** What the client script leaves in a job of the worker. */
  datatype Done = Done(exitCode: int, stdout: string, stderr: string)

  type Script = Task -> Done

  // ---------------------------------------------------------------- the worker's side

  type Payload = map<TaskId, Task>

  /** A reply as it is sent back: the output only if it was asked for, standard error under another name than
      the one the controller reads. */
  datatype Reply = Reply(exitCode: int, stdout: Option<string>, stderror: Option<string>)

  function ReplyOf(t: Task, d: Done): Reply {
    if t.wantsOutput then Reply(d.exitCode, Some(d.stdout), Some(d.stderr)) else Reply(d.exitCode, None, None)
  }

  /** One reply for every task of the batch. */
  function Replies(p: Payload, script: Script): map<TaskId, Reply> {
    map id | id in p :: ReplyOf(p[id], script(p[id]))
  }

  method HandleJob(p: Payload, script: Script) returns (replies: map<TaskId, Reply>)
    ensures replies == Replies(p, script)
  {
    replies := map[];
    var todo := p.Keys;
    while todo != {}
      invariant todo <= p.Keys && replies == Replies(p, script) - todo
      decreases |todo|
    {
      var id :| id in todo;
      todo := todo - {id};
      replies := replies[id := ReplyOf(p[id], script(p[id]))];
    }
  }

  // ---------------------------------------------------------------- the controller's side

  datatype TaskResult = TaskResult(exitCode: int, stdout: string, stderr: string)

  /** What the controller decodes: it never finds standard error. */
  function Decoded(r: Reply): TaskResult {
    TaskResult(r.exitCode, if r.stdout.Some? then r.stdout.value else "", "")
  }

  /** What comes back of what the script left: never standard error, and standard output only if asked for. */
  lemma ReplyDecodes(t: Task, d: Done)
    ensures Decoded(ReplyOf(t, d)) == TaskResult(d.exitCode, if t.wantsOutput then d.stdout else "", "")
  {
  }

  predicate Arrives(t: Task, d: Done) {
    Decoded(ReplyOf(t, d)) == TaskResult(d.exitCode, d.stdout, d.stderr)
  }

  /** The controller knows what the script left exactly when there was nothing on standard error, and nothing
      on standard output unless it was asked for. */
  lemma ArrivesExactly(t: Task, d: Done)
    ensures Arrives(t, d) <==> d.stderr == "" && (t.wantsOutput || d.stdout == "")
  {
  }

  datatype Update = Complete(replies: map<TaskId, Reply>) | Unsuccessful

  function Ids(tasks: seq<Task>): set<TaskId> {
    set t | t in tasks :: t.id
  }

  function PayloadOf(batch: seq<Task>): Payload {
    if batch == [] then map[] else PayloadOf(batch[..|batch| - 1])[batch[|batch| - 1].id := batch[|batch| - 1]]
  }

  /** The backend: all tasks sent so far, the tasks collected for the next batch, the batches sent, the results. */
  datatype Backend = Backend(
    size: nat, tasks: seq<Task>, batch: seq<Task>, sent: seq<seq<Task>>, results: map<TaskId, TaskResult>)

  function Fresh(size: nat): Backend {
    Backend(size, [], [], [], map[])
  }

  /** sendBatch, when the tasks can be saved. */
  function Send(b: Backend): Backend {
    if b.batch == [] then b
    else
      var n := if |b.batch| < b.size then |b.batch| else b.size;
      var batch := b.batch[|b.batch| - n..];
      b.(batch := b.batch[..|b.batch| - n], tasks := b.tasks + batch, sent := b.sent + [batch])
  }

  function Add(b: Backend, t: Task): Backend
    requires b.size > 0
  {
    var b1 := b.(batch := b.batch + [t]);
    if |b1.batch| % b.size == 0 then Send(b1) else b1
  }

  function Merged(
    results: map<TaskId, TaskResult>, tasks: seq<Task>, replies: map<TaskId, Reply>): map<TaskId, TaskResult>
    decreases |tasks|
  {
    if tasks == [] then results
    else
      var t := tasks[0];
      Merged(if t.id in replies then results[t.id := Decoded(replies[t.id])] else results, tasks[1..], replies)
  }

  function Handle(b: Backend, u: Update): Backend {
    if u.Complete? then b.(results := Merged(b.results, b.tasks, u.replies)) else b
  }

  lemma FullExactly(n: nat, size: nat)
    requires 0 < n <= size
    ensures n % size == 0 <==> n == size
  {
  }

  lemma SendsAll(b: Backend)
    requires |b.batch| <= b.size && b.batch != []
    ensures Send(b) == b.(batch := [], tasks := b.tasks + b.batch, sent := b.sent + [b.batch])
  {
    assert b.batch[0..] == b.batch && b.batch[..0] == [];
  }

  class TaskBackend {
    const size: nat
    /** The slice of collected tasks: its backing array, used again for every batch, and its length. */
    const buffer: array<Task>
    var length: nat
    var tasks: seq<Task>
    var sent: seq<Payload>
    var results: map<TaskId, TaskResult>
    ghost var batches: seq<seq<Task>>

    ghost predicate Valid()
      reads this, buffer
    {
      && 0 < size == buffer.Length && length < size
      && sent == Payloads(batches)
    }

    ghost function View(): Backend
      requires Valid()
      reads this, buffer
    {
      Backend(size, tasks, buffer[..length], batches, results)
    }

    constructor (size: nat, filler: Task)
      requires size > 0
      ensures Valid() && fresh(buffer) && View() == Fresh(size)
    {
      this.size := size;
      buffer := new Task[size](_ => filler);
      length, tasks, sent, results, batches := 0, [], [], map[], [];
    }

    /** saved tells whether the store accepts the tasks of a batch. */
    method Submit(q: Request, saved: bool) returns (ok: bool)
      requires Valid()
      modifies this`length, this`tasks, this`sent, this`batches, buffer
      ensures Valid()
      ensures ok ==> View() == Add(old(View()), TaskFor(q))
      ensures var asked := q.wantsOutput || q.stdoutFile != "" || q.stderrFile != "";
              var batch := old(buffer[..length]) + [Task(q.id, q.args, asked, q.stdoutFile, q.stderrFile)];
              if |batch| < size then
                ok && buffer[..length] == batch && tasks == old(tasks) && batches == old(batches)
              else
                && ok == saved && length == 0 && tasks == old(tasks) + batch
                && batches == old(batches) + if saved then [batch] else []
    {
      var t := Task(q.id, q.args, false, q.stdoutFile, q.stderrFile);
      if q.wantsOutput || q.stdoutFile != "" || q.stderrFile != "" {
        t := t.(wantsOutput := true);
      }
      ghost var before := buffer[..length];
      buffer[length] := t;
      length := length + 1;
      assert buffer[..length] == before + [t];
      FullExactly(length, size);
      ok := true;
      if length % size == 0 {
        ok := SendBatch(saved);
      }
    }

    /** The payload is built before the buffer can be used again. */
    method SendBatch(saved: bool) returns (ok: bool)
      requires 0 < size == buffer.Length && length <= size && sent == Payloads(batches)
      modifies this`length, this`tasks, this`sent, this`batches
      ensures Valid()
      ensures ok <==> saved || old(length) == 0
      ensures ok ==> View() == Send(Backend(size, old(tasks), old(buffer[..length]), old(batches), results))
      ensures length == 0 && tasks == old(tasks) + old(buffer[..length])
      ensures batches == old(batches) + if saved && old(length) > 0 then [old(buffer[..length])] else []
    {
      ghost var before := Backend(size, tasks, buffer[..length], batches, results);
      var ln := length;
      if ln == 0 {
        return true;
      }
      SendsAll(before);
      var n := size;
      if ln < size {
        n := ln;
      }
      var batch := buffer[ln - n..ln];
      assert batch == before.batch;
      length := ln - n;
      tasks := tasks + batch;
      if !saved {
        return false;
      }
      var payload := BuildPayload(batch);
      PayloadsConcat(batches, batch);
      sent := sent + [payload];
      batches := batches + [batch];
      ok := true;
    }

    /** wait, up to the point where all batches have been sent. */
    method Flush(saved: bool) returns (ok: bool)
      requires Valid()
      modifies this`length, this`tasks, this`sent, this`batches
      ensures Valid()
      ensures ok <==> saved || old(length) == 0
      ensures ok ==> View() == Send(old(View()))
      ensures length == 0 && tasks == old(tasks) + old(buffer[..length])
      ensures batches == old(batches) + if saved && old(length) > 0 then [old(buffer[..length])] else []
    {
      ok := true;
      if length > 0 {
        ok := SendBatch(saved);
      }
    }

    method HandleJobUpdate(u: Update)
      requires Valid()
      modifies this`results
      ensures Valid() && View() == Handle(old(View()), u)
    {
      if u.Unsuccessful? {
        return;
      }
      var i := 0;
      while i < |tasks|
        invariant i <= |tasks|
        invariant Merged(old(results), tasks, u.replies) == Merged(results, tasks[i..], u.replies)
      {
        assert tasks[i..][1..] == tasks[i + 1..];
        var id := tasks[i].id;
        if id in u.replies {
          results := results[id := Decoded(u.replies[id])];
        }
        i := i + 1;
      }
    }
  }

  function Payloads(batches: seq<seq<Task>>): seq<Payload> {
    if batches == [] then [] else [PayloadOf(batches[0])] + Payloads(batches[1..])
  }

  lemma {:induction false} PayloadsConcat(batches: seq<seq<Task>>, batch: seq<Task>)
    ensures Payloads(batches + [batch]) == Payloads(batches) + [PayloadOf(batch)]
  {
    if batches == [] {
      assert [] + [batch] == [batch] && [batch][1..] == [];
    } else {
      assert (batches + [batch])[1..] == batches[1..] + [batch];
      PayloadsConcat(batches[1..], batch);
    }
  }

  method BuildPayload(batch: seq<Task>) returns (payload: Payload)
    ensures payload == PayloadOf(batch)
  {
    payload := map[];
    var i := 0;
    while i < |batch|
      invariant i <= |batch| && payload == PayloadOf(batch[..i])
    {
      assert batch[..i + 1][..i] == batch[..i];
      payload := payload[batch[i].id := batch[i]];
      i := i + 1;
    }
    assert batch[..i] == batch;
  }

  /** The exit code of the job: the largest one seen, at least 0, in whatever order the results are ranged over. */
  predicate IsExitCode(results: map<TaskId, TaskResult>, code: int) {
    IsLargest(results, results.Keys, code)
  }

  predicate IsLargest(results: map<TaskId, TaskResult>, seen: set<TaskId>, code: int)
    requires seen <= results.Keys
  {
    && (forall id | id in seen :: results[id].exitCode <= code)
    && (code == 0 || (code > 0 && exists id :: id in seen && results[id].exitCode == code))
  }

  method ProcessTaskResults(results: map<TaskId, TaskResult>) returns (maxExitCode: int)
    ensures maxExitCode >= 0 && IsExitCode(results, maxExitCode)
  {
    maxExitCode := 0;
    var todo := results.Keys;
    while todo != {}
      invariant todo <= results.Keys && maxExitCode >= 0
      invariant IsLargest(results, results.Keys - todo, maxExitCode)
      decreases |todo|
    {
      var id :| id in todo;
      todo := todo - {id};
      assert id in results.Keys - todo;
      if results[id].exitCode > maxExitCode {
        maxExitCode := results[id].exitCode;
      }
    }
    assert results.Keys - todo == results.Keys;
  }
}
