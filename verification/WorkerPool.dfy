/** The pool of worker processes: which client scripts each registers, and restarting those that exit
    (worker/worker/client/pool.py). */
module WorkerPool {
  import opened Text

  type Script = string

  /** How many instances of a client script may run at the same time. */
  datatype Demand = Demand(script: Script, instances: int)

  predicate DistinctScripts(demands: seq<Demand>) {
    demands == [] || ((forall d | d in demands[1..] :: d.script != demands[0].script) && DistinctScripts(demands[1..]))
  }

  // ---------------------------------------------------------------- the allocation

  /** The scripts that still have demand, in order, and what is left once a worker has taken one of each. */
  function Wanted(demands: seq<Demand>): seq<Script> {
    if demands == [] then []
    else if demands[0].instances > 0 then [demands[0].script] + Wanted(demands[1..])
    else Wanted(demands[1..])
  }

  function Reduced(demands: seq<Demand>): seq<Demand> {
    if demands == [] then []
    else
      var d := demands[0];
      [if d.instances > 0 then d.(instances := d.instances - 1) else d] + Reduced(demands[1..])
  }

  function Allocated(demands: seq<Demand>, size: nat): seq<seq<Script>>
    decreases size
  {
    if size == 0 then [] else [Wanted(demands)] + Allocated(Reduced(demands), size - 1)
  }

  /** _get_worker_init_args. */
  method GetWorkerInitArgs(required: seq<Demand>, size: int) returns (args: seq<seq<Script>>)
    ensures args == Allocated(required, if size > 0 then size else 0)
  {
    args := [];
    var remaining := required;
    var i := 0;
    while i < size
      invariant 0 <= i && (size > 0 ==> i <= size)
      invariant size > 0 ==> Allocated(required, size) == args + Allocated(remaining, size - i)
      invariant size <= 0 ==> args == []
    {
      ghost var before := remaining;
      var scripts;
      scripts, remaining := OneOfEach(remaining);
      assert Allocated(before, size - i) == [scripts] + Allocated(remaining, size - i - 1);
      args := args + [scripts];
      i := i + 1;
    }
  }

  /** The inner loop: a worker takes one instance of every script that still has some. */
  method OneOfEach(demands: seq<Demand>) returns (scripts: seq<Script>, remaining: seq<Demand>)
    ensures scripts == Wanted(demands) && remaining == Reduced(demands)
  {
    scripts, remaining := [], demands;
    var j := 0;
    while j < |remaining|
      invariant j <= |remaining| == |demands| && remaining[j..] == demands[j..]
      invariant Wanted(demands) == scripts + Wanted(demands[j..])
      invariant Reduced(demands) == remaining[..j] + Reduced(demands[j..])
    {
      assert demands[j..][0] == remaining[j];
      if remaining[j].instances > 0 {
        scripts := scripts + [remaining[j].script];
        remaining := remaining[j := remaining[j].(instances := remaining[j].instances - 1)];
      }
      j := j + 1;
    }
  }

  function InstancesOf(demands: seq<Demand>, s: Script): int {
    if demands == [] then 0
    else if demands[0].script == s then demands[0].instances
    else InstancesOf(demands[1..], s)
  }

  lemma {:induction false} WantedHolds(demands: seq<Demand>, s: Script)
    requires DistinctScripts(demands)
    ensures s in Wanted(demands) <==> InstancesOf(demands, s) > 0
  {
    if demands != [] {
      WantedHolds(demands[1..], s);
      if demands[0].script == s {
        NotWanted(demands[1..], s);
      }
    }
  }

  lemma {:induction false} NotWanted(demands: seq<Demand>, s: Script)
    requires forall d | d in demands :: d.script != s
    ensures s !in Wanted(demands)
  {
    if demands != [] {
      NotWanted(demands[1..], s);
    }
  }

  lemma {:induction false} ReducedHolds(demands: seq<Demand>, s: Script)
    requires DistinctScripts(demands)
    ensures DistinctScripts(Reduced(demands))
    ensures InstancesOf(Reduced(demands), s)
            == if InstancesOf(demands, s) > 0 then InstancesOf(demands, s) - 1 else InstancesOf(demands, s)
  {
    if demands != [] {
      ReducedHolds(demands[1..], s);
      ReducedScripts(demands[1..]);
      assert Reduced(demands)[1..] == Reduced(demands[1..]);
    }
  }

  lemma {:induction false} ReducedScripts(demands: seq<Demand>)
    ensures forall d | d in Reduced(demands) :: exists e :: e in demands && e.script == d.script
  {
    if demands != [] {
      ReducedScripts(demands[1..]);
      forall d | d in Reduced(demands) ensures exists e :: e in demands && e.script == d.script {
        if d in Reduced(demands[1..]) {
          var e :| e in demands[1..] && e.script == d.script;
          assert e in demands;
        } else {
          assert demands[0] in demands && demands[0].script == d.script;
        }
      }
    }
  }

  /** Worker i registers a script exactly if more than i instances of it are wanted. */
  lemma {:induction false} WorkerGetsScript(demands: seq<Demand>, size: nat, i: nat, s: Script)
    requires DistinctScripts(demands) && i < size
    ensures |Allocated(demands, size)| == size
    ensures s in Allocated(demands, size)[i] <==> InstancesOf(demands, s) > i
    decreases size
  {
    AllocatedSize(demands, size);
    WantedHolds(demands, s);
    ReducedHolds(demands, s);
    if i > 0 {
      WorkerGetsScript(Reduced(demands), size - 1, i - 1, s);
    }
  }

  /** The scripts are those of which more than i instances are wanted, in the order of the demands. */
  predicate TakenInOrder(scripts: seq<Script>, demands: seq<Demand>, i: nat) {
    if demands == [] then scripts == []
    else if demands[0].instances > i then
      scripts != [] && scripts[0] == demands[0].script && TakenInOrder(scripts[1..], demands[1..], i)
    else TakenInOrder(scripts, demands[1..], i)
  }

  lemma {:induction false} WantedInOrder(demands: seq<Demand>)
    ensures TakenInOrder(Wanted(demands), demands, 0)
  {
    if demands != [] {
      WantedInOrder(demands[1..]);
    }
  }

  lemma {:induction false} ReducedInOrder(scripts: seq<Script>, demands: seq<Demand>, i: nat)
    ensures TakenInOrder(scripts, Reduced(demands), i) <==> TakenInOrder(scripts, demands, i + 1)
  {
    if demands != [] {
      var d, e := demands[0], Reduced(demands)[0];
      assert Reduced(demands)[1..] == Reduced(demands[1..]) && e.script == d.script;
      assert e.instances > i <==> d.instances > i + 1;
      if d.instances <= i + 1 {
        ReducedInOrder(scripts, demands[1..], i);
      } else if scripts != [] {
        ReducedInOrder(scripts[1..], demands[1..], i);
      }
    }
  }

  /** Worker i registers the scripts of which more than i instances are wanted, in their order. */
  lemma {:induction false} WorkerTakesInOrder(demands: seq<Demand>, size: nat, i: nat)
    requires i < size
    ensures |Allocated(demands, size)| == size && TakenInOrder(Allocated(demands, size)[i], demands, i)
    decreases size
  {
    AllocatedSize(demands, size);
    WantedInOrder(demands);
    if i > 0 {
      WorkerTakesInOrder(Reduced(demands), size - 1, i - 1);
      ReducedInOrder(Allocated(Reduced(demands), size - 1)[i - 1], demands, i - 1);
    }
  }

  lemma {:induction false} AllocatedSize(demands: seq<Demand>, size: nat)
    ensures |Allocated(demands, size)| == size
    decreases size
  {
    if size > 0 {
      AllocatedSize(Reduced(demands), size - 1);
    }
  }

  /** The largest demand. */
  function Largest(demands: seq<Demand>): int
    requires demands != []
  {
    if |demands| == 1 then demands[0].instances
    else Max(demands[0].instances, Largest(demands[1..]))
  }

  lemma {:induction false} LargestHolds(demands: seq<Demand>) returns (s: Script)
    requires demands != [] && DistinctScripts(demands)
    ensures InstancesOf(demands, s) == Largest(demands) && exists d :: d in demands && d.script == s
  {
    s := demands[0].script;
    assert demands[0] in demands;
    if |demands| > 1 {
      var r := LargestHolds(demands[1..]);
      var d :| d in demands[1..] && d.script == r;
      assert d in demands;
      if demands[0].instances < Largest(demands[1..]) {
        s := r;
      }
    }
  }

  function PoolSize(demands: seq<Demand>, workers: int): int
    requires demands != []
  {
    Min(workers, Largest(demands))
  }

  /** The setting or the largest demand, whichever is smaller. */
  predicate IsPoolSize(demands: seq<Demand>, workers: int, size: int) {
    && size <= workers && (exists d :: d in demands && size <= d.instances)
    && (size == workers || forall d | d in demands :: d.instances <= size)
  }

  lemma {:induction false} LargestIs(demands: seq<Demand>)
    requires demands != []
    ensures exists d :: d in demands && d.instances == Largest(demands)
    ensures forall d | d in demands :: d.instances <= Largest(demands)
  {
    assert demands[0] in demands;
    if |demands| > 1 {
      LargestIs(demands[1..]);
      var d :| d in demands[1..] && d.instances == Largest(demands[1..]);
      assert d in demands;
    }
  }

  lemma PoolSizeIs(demands: seq<Demand>, workers: int)
    requires demands != []
    ensures IsPoolSize(demands, workers, PoolSize(demands, workers))
  {
    LargestIs(demands);
  }

  /** No worker of the pool is without a script, and with any worker at all every script that is wanted is
      registered. */
  lemma NobodyIdle(demands: seq<Demand>, workers: int, i: nat)
    requires demands != [] && DistinctScripts(demands) && i < PoolSize(demands, workers)
    ensures var args := Allocated(demands, PoolSize(demands, workers));
            |args| == PoolSize(demands, workers) && args[i] != []
            && forall s :: s in args[0] <==> InstancesOf(demands, s) > 0
  {
    var size := PoolSize(demands, workers);
    var s := LargestHolds(demands);
    WorkerGetsScript(demands, size, i, s);
    forall r ensures r in Allocated(demands, size)[0] <==> InstancesOf(demands, r) > 0 {
      WorkerGetsScript(demands, size, 0, r);
    }
  }

  /** The workers that register a script, below a number. */
  function Registered(args: seq<seq<Script>>, s: Script): set<nat> {
    set i: nat | i < |args| && s in args[i]
  }

  /** A script is registered by as many workers as it wants instances, or by all of them. */
  lemma RegisteredCount(demands: seq<Demand>, size: nat, s: Script)
    requires DistinctScripts(demands)
    ensures |Registered(Allocated(demands, size), s)| == Max(0, Min(InstancesOf(demands, s), size))
  {
    AllocatedSize(demands, size);
    var n := Max(0, Min(InstancesOf(demands, s), size));
    var args := Allocated(demands, size);
    forall i: nat ensures i in Registered(args, s) <==> i < n {
      if i < size {
        WorkerGetsScript(demands, size, i, s);
      }
    }
    UpToHolds(n);
    assert Registered(args, s) == UpTo(n);
  }

  function UpTo(n: nat): set<nat> {
    if n == 0 then {} else UpTo(n - 1) + {n - 1}
  }

  lemma {:induction false} UpToHolds(n: nat)
    ensures |UpTo(n)| == n && forall i: nat :: i in UpTo(n) <==> i < n
  {
    if n > 0 {
      UpToHolds(n - 1);
    }
  }

  // ---------------------------------------------------------------- the processes

  /** A process is started for a place in the pool and runs until it exits. */
  datatype Process = Process(place: nat, alive: bool)

  /** All processes ever started, and for each place of the pool the latest. */
  datatype Pool = Pool(processes: seq<Process>, workers: seq<nat>)

  predicate Consistent(p: Pool) {
    && (forall i | 0 <= i < |p.workers| :: p.workers[i] < |p.processes| && p.processes[p.workers[i]].place == i)
    && (forall q | 0 <= q < |p.processes| && p.processes[q].alive ::
          p.processes[q].place < |p.workers| && p.workers[p.processes[q].place] == q)
  }

  function Exited(p: Pool, q: nat): Pool
    requires q < |p.processes|
  {
    p.(processes := p.processes[q := p.processes[q].(alive := false)])
  }

  /** Replacing the process of one place, if it has exited. */
  function Replaced(p: Pool, i: nat): Pool
    requires Consistent(p) && i < |p.workers|
  {
    if p.processes[p.workers[i]].alive then p
    else Pool(p.processes + [Process(i, true)], p.workers[i := |p.processes|])
  }

  /** The same for the first n places, one after the other. */
  function ReplacedUpTo(p: Pool, n: nat): (r: Pool)
    requires Consistent(p) && n <= |p.workers|
    ensures Consistent(r) && |r.workers| == |p.workers|
  {
    if n == 0 then p else Replaced(ReplacedUpTo(p, n - 1), n - 1)
  }

  predicate HasExited(p: Pool, k: nat)
    requires Consistent(p) && k < |p.workers|
  {
    !p.processes[p.workers[k]].alive
  }

  /** A place among the first n whose process has exited has a new one, any other keeps its process. */
  predicate PlaceRestarted(p: Pool, r: Pool, n: nat, k: nat)
    requires Consistent(p) && Consistent(r) && k < |p.workers| == |r.workers|
  {
    if k < n && HasExited(p, k) then
      |p.processes| <= r.workers[k] && r.processes[r.workers[k]] == Process(k, true)
    else r.workers[k] == p.workers[k]
  }

  /** The same of all places, and no process is forgotten or started besides. */
  predicate Restarted(p: Pool, r: Pool, n: nat)
    requires Consistent(p) && Consistent(r)
  {
    && p.processes <= r.processes && |r.workers| == |p.workers|
    && (forall q | |p.processes| <= q < |r.processes| :: r.processes[q].alive)
    && forall k: nat | k < |p.workers| :: PlaceRestarted(p, r, n, k)
  }

  lemma StillExited(p: Pool, r: Pool, n: nat)
    requires Consistent(p) && Consistent(r) && Restarted(p, r, n) && n < |p.workers|
    ensures HasExited(r, n) <==> HasExited(p, n)
  {
    assert PlaceRestarted(p, r, n, n);
  }

  lemma RestartedStep(p: Pool, r: Pool, n: nat)
    requires Consistent(p) && Consistent(r) && Restarted(p, r, n) && n < |p.workers|
    requires Consistent(Replaced(r, n))
    ensures Restarted(p, Replaced(r, n), n + 1)
  {
    var r', m := Replaced(r, n), n + 1;
    StillExited(p, r, n);
    forall k: nat | k < |p.workers| ensures PlaceRestarted(p, r', m, k) {
      assert PlaceRestarted(p, r, n, k);
      if k != n {
        assert r'.workers[k] == r.workers[k];
      }
    }
  }

  lemma {:induction false} ReplacedAreRestarted(p: Pool, n: nat)
    requires Consistent(p) && n <= |p.workers|
    ensures Restarted(p, ReplacedUpTo(p, n), n)
  {
    if n > 0 {
      ReplacedAreRestarted(p, n - 1);
      RestartedStep(p, ReplacedUpTo(p, n - 1), n - 1);
    }
  }

  /** Some process of the first n places has exited. */
  predicate SomeExited(p: Pool, n: nat)
    requires Consistent(p) && n <= |p.workers|
  {
    exists k: nat :: k < n && HasExited(p, k)
  }

  lemma NextPlace(p: Pool, n: nat)
    requires Consistent(p) && n < |p.workers|
    ensures HasExited(ReplacedUpTo(p, n), n) <==> HasExited(p, n)
    ensures SomeExited(p, n + 1) <==> SomeExited(p, n) || HasExited(p, n)
  {
    ReplacedAreRestarted(p, n);
    StillExited(p, ReplacedUpTo(p, n), n);
  }

  lemma {:induction false} NothingReplaced(p: Pool, n: nat)
    requires Consistent(p) && n <= |p.workers| && !SomeExited(p, n)
    ensures ReplacedUpTo(p, n) == p
  {
    if n > 0 {
      assert !HasExited(p, n - 1);
      NothingReplaced(p, n - 1);
    }
  }

  lemma RestartedLive(p: Pool, r: Pool)
    requires Consistent(p) && Consistent(r) && Restarted(p, r, |p.workers|)
    ensures forall k: nat | k < |r.workers| :: !HasExited(r, k)
  {
    forall k: nat | k < |r.workers| ensures !HasExited(r, k) {
      assert PlaceRestarted(p, r, |p.workers|, k);
      if !HasExited(p, k) {
        assert r.processes[p.workers[k]] == p.processes[p.workers[k]];
      }
    }
  }

  class ProcessPool {
    const args: seq<seq<Script>>
    const size: int
    var processes: seq<Process>
    var workers: seq<nat>

    function View(): Pool
      reads this
    {
      Pool(processes, workers)
    }

    constructor (required: seq<Demand>, setting: int)
      requires required != []
      ensures size == PoolSize(required, setting) && IsPoolSize(required, setting, size)
      ensures args == Allocated(required, if size > 0 then size else 0)
      ensures View() == Pool([], [])
    {
      var n := PoolSize(required, setting);
      var a := GetWorkerInitArgs(required, n);
      PoolSizeIs(required, setting);
      size, args := n, a;
      processes, workers := [], [];
    }

    /** start: one process for every place. */
    method Start()
      requires processes == [] && workers == []
      modifies this
      ensures Consistent(View()) && |workers| == if size > 0 then size else 0
      ensures forall q | 0 <= q < |processes| :: processes[q].alive
    {
      var i := 0;
      while i < size
        invariant 0 <= i && (size > 0 ==> i <= size) && (size <= 0 ==> i == 0)
        invariant |workers| == |processes| == i
        invariant forall q | 0 <= q < i :: workers[q] == q && processes[q] == Process(q, true)
      {
        workers := workers + [|processes|];
        processes := processes + [Process(i, true)];
        i := i + 1;
      }
    }

    /** A process may exit at any time. */
    method Exit(q: nat)
      requires Consistent(View()) && q < |processes|
      modifies this
      ensures Consistent(View()) && View() == Exited(old(View()), q)
    {
      processes := processes[q := processes[q].(alive := false)];
    }

    /** _restart_exited_workers. */
    method RestartExitedWorkers() returns (restarted: bool)
      requires Consistent(View())
      modifies this
      ensures Consistent(View()) && Restarted(old(View()), View(), |old(workers)|)
      ensures restarted <==> SomeExited(old(View()), |old(workers)|)
      ensures !restarted ==> View() == old(View())
      ensures forall k: nat | k < |workers| :: !HasExited(View(), k)
    {
      ghost var before := View();
      restarted := false;
      var i := 0;
      while i < |workers|
        invariant i <= |workers| == |before.workers| && View() == ReplacedUpTo(before, i)
        invariant restarted <==> SomeExited(before, i)
      {
        NextPlace(before, i);
        var exited := RestartWorker(i);
        restarted := restarted || exited;
        i := i + 1;
      }
      ReplacedAreRestarted(before, i);
      RestartedLive(before, View());
      if !restarted {
        NothingReplaced(before, i);
      }
    }

    method RestartWorker(index: nat) returns (exited: bool)
      requires Consistent(View()) && index < |workers|
      modifies this
      ensures View() == Replaced(old(View()), index)
      ensures exited <==> HasExited(old(View()), index)
    {
      exited := !processes[workers[index]].alive;
      if exited {
        workers, processes := workers[index := |processes|], processes + [Process(index, true)];
      }
    }
  }

  /** The live processes that have registered a script. */
  function LiveFor(p: Pool, args: seq<seq<Script>>, s: Script): set<nat> {
    set q: nat | q < |p.processes| && p.processes[q].alive && p.processes[q].place < |args|
      && s in args[p.processes[q].place]
  }

  lemma {:induction false} ImageSmaller(places: set<nat>, workers: seq<nat>)
    requires forall i | i in places :: i < |workers|
    ensures |set i | i in places :: workers[i]| <= |places|
    decreases |places|
  {
    if places != {} {
      var i :| i in places;
      ImageSmaller(places - {i}, workers);
      assert (set k | k in places :: workers[k]) == (set k | k in places - {i} :: workers[k]) + {workers[i]};
    }
  }

  /** Whatever exits and restarts: never more live processes have registered a script than it wants instances. */
  lemma NeverTooMany(p: Pool, demands: seq<Demand>, size: nat, s: Script)
    requires Consistent(p) && DistinctScripts(demands) && |p.workers| == size
    ensures |LiveFor(p, Allocated(demands, size), s)| <= Max(0, InstancesOf(demands, s))
  {
    var args := Allocated(demands, size);
    AllocatedSize(demands, size);
    var places := Registered(args, s);
    var image := set i | i in places :: p.workers[i];
    forall q | q in LiveFor(p, args, s) ensures q in image {
      assert p.processes[q].place in places && p.workers[p.processes[q].place] == q;
    }
    SubsetSize(LiveFor(p, args, s), image);
    ImageSmaller(places, p.workers);
    RegisteredCount(demands, size, s);
  }
}
