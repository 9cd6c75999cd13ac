/** What holds of whole runs of the workflow interpreter: which statuses are written, in which order, and that
    a closed and acyclic document is processed to an end. */
module WorkflowRuns {
  import opened Text
  import opened Workflow
  import opened WorkflowTurns

  // ---------------------------------------------------------------- reading the log

  function StatusesOf(log: seq<Event>, j: nat): seq<Status> {
    if log == [] then []
    else if log[0].OfJob? && log[0].job == j then [log[0].s] + StatusesOf(log[1..], j)
    else StatusesOf(log[1..], j)
  }

  function PackageOf(log: seq<Event>): seq<PackageStatus> {
    if log == [] then []
    else if log[0].OfPackage? then [log[0].p] + PackageOf(log[1..])
    else PackageOf(log[1..])
  }

  lemma {:induction false} StatusesConcat(a: seq<Event>, b: seq<Event>, j: nat)
    ensures StatusesOf(a + b, j) == StatusesOf(a, j) + StatusesOf(b, j)
  {
    if a == [] {
      assert a + b == b;
    } else {
      assert (a + b)[1..] == a[1..] + b;
      StatusesConcat(a[1..], b, j);
    }
  }

  lemma {:induction false} PackageConcat(a: seq<Event>, b: seq<Event>)
    ensures PackageOf(a + b) == PackageOf(a) + PackageOf(b)
  {
    if a == [] {
      assert a + b == b;
    } else {
      assert (a + b)[1..] == a[1..] + b;
      PackageConcat(a[1..], b);
    }
  }

  lemma {:induction false} EventsRead(job: nat, statuses: seq<Status>, j: nat)
    ensures StatusesOf(Events(job, statuses), j) == if j == job then statuses else []
    ensures PackageOf(Events(job, statuses)) == []
  {
    if statuses != [] {
      EventsRead(job, statuses[1..], j);
      assert Events(job, statuses)[1..] == Events(job, statuses[1..]);
    }
  }

  lemma OneRead(e: Event, j: nat)
    ensures StatusesOf([e], j) == if e.OfJob? && e.job == j then [e.s] else []
    ensures PackageOf([e]) == if e.OfPackage? then [e.p] else []
  {
    assert [e][1..] == [];
  }

  // ---------------------------------------------------------------- the statuses of a job

  predicate IsDecision(link: Link) {
    link.runner.NextChain? || link.runner.UpdateContext?
  }

  /** All that may have been written for a job, run with the given exit code, when the next one begins. */
  predicate Settled(link: Link, code: nat, statuses: seq<Status>) {
    match link.runner
    case ClientScript => |statuses| == 2 && statuses[0] == Executing && CodeStatus(link, code, statuses[1])
    case _ =>
      || statuses == [Executing, Completed]
      || (IsDecision(link) && statuses == [Executing, AwaitingDecision, Completed])
  }

  /** All that may be written for the last job. */
  predicate Allowed(link: Link, code: nat, statuses: seq<Status>) {
    || Settled(link, code, statuses)
    || statuses == [Executing]
    || (IsDecision(link) && statuses == [Executing, AwaitingDecision])
  }

  lemma WorkStatuses(doc: Document, link: Link, vars: map<string, Id>, context: map<string, string>, a: Answers)
    ensures var w := JobWork(doc, link, vars, context, a);
            match w.verdict
            case Await(_) => IsDecision(link) && w.statuses == [Executing, AwaitingDecision]
            case Fail => w.statuses == [] || w.statuses == [Executing]
            case _ => Settled(link, a.exitCode, w.statuses)
  {
  }

  /** The exit code of the turn, if a job begins in it. */
  function CodeOf(doc: Document, start: Start, s: State, t: Turn): seq<nat> {
    if |Iterate(doc, start, s, t).state.jobs| > |s.jobs| then [t.answers.exitCode] else []
  }

  /** The exit codes of the turns that ran the jobs, one for each job. */
  function Codes(doc: Document, start: Start, s: State, turns: seq<Turn>): seq<nat>
    decreases |turns|
  {
    if turns == [] then []
    else
      var p := Iterate(doc, start, s, turns[0]);
      CodeOf(doc, start, s, turns[0]) + if p.phase.Running? then Codes(doc, start, p.state, turns[1..]) else []
  }

  /** The jobs up to a number are settled. */
  ghost predicate SettledUpTo(doc: Document, s: State, codes: seq<nat>, n: nat) {
    && n <= |s.jobs| == |codes|
    && (forall j | 0 <= j < n ::
          s.jobs[j] in doc.links && Settled(doc.links[s.jobs[j]], codes[j], StatusesOf(s.log, j)))
    && forall j | j >= |s.jobs| :: StatusesOf(s.log, j) == []
  }

  ghost predicate JobsHold(doc: Document, s: State, codes: seq<nat>, phase: Phase) {
    || SettledUpTo(doc, s, codes, |s.jobs|)
    || (!phase.Running? && LastAllowed(doc, s, codes))
  }

  ghost predicate LastAllowed(doc: Document, s: State, codes: seq<nat>) {
    var n := |s.jobs| - 1;
    && n >= 0 && SettledUpTo(doc, s, codes, n)
    && s.jobs[n] in doc.links && Allowed(doc.links[s.jobs[n]], codes[n], StatusesOf(s.log, n))
  }

  lemma LogOnly(doc: Document, s: State, codes: seq<nat>, n: nat, p: PackageStatus)
    requires SettledUpTo(doc, s, codes, n)
    ensures SettledUpTo(doc, s.(log := s.log + [OfPackage(p)]), codes, n)
    ensures forall j :: StatusesOf(s.log + [OfPackage(p)], j) == StatusesOf(s.log, j)
  {
    forall j ensures StatusesOf(s.log + [OfPackage(p)], j) == StatusesOf(s.log, j) {
      StatusesConcat(s.log, [OfPackage(p)], j);
      OneRead(OfPackage(p), j);
    }
  }

  /** A new job is the only one whose statuses change. */
  lemma JobAdded(doc: Document, s: State, codes: seq<nat>, w: Work, code: nat)
    requires SettledUpTo(doc, s, codes, |s.jobs|) && s.chain.Some? && s.nextLink in doc.links && w.statuses != []
    ensures var s' := Worked(s, w);
            && s'.jobs == s.jobs + [s.nextLink]
            && SettledUpTo(doc, s', codes + [code], |s.jobs|)
            && StatusesOf(s'.log, |s.jobs|) == w.statuses
  {
    var s' := Worked(s, w);
    var events := Events(|s.jobs|, w.statuses);
    forall j ensures StatusesOf(s'.log, j) == StatusesOf(s.log, j) + if j == |s.jobs| then w.statuses else [] {
      StatusesConcat(s.log, events, j);
      EventsRead(|s.jobs|, w.statuses, j);
    }
  }

  /** What holds after a step, with the code of the job that it began, if any. */
  ghost predicate JobsAfterStep(doc: Document, s: State, codes: seq<nat>, a: Answers, step: Step) {
    var codes' := if |step.state.jobs| > |s.jobs| then codes + [a.exitCode] else codes;
    match step.outcome
    case Continue => SettledUpTo(doc, step.state, codes', |step.state.jobs|)
    case Wait(job, _) =>
      |step.state.jobs| > |s.jobs| && job == |step.state.jobs| - 1 && AwaitsLast(doc, step.state, codes')
    case outcome => JobsHold(doc, step.state, codes', Finished(outcome))
  }

  lemma JobsAfterJob(doc: Document, s: State, codes: seq<nat>, a: Answers)
    requires SettledUpTo(doc, s, codes, |s.jobs|) && s.chain.Some? && s.nextLink in doc.links
    ensures var link := doc.links[s.nextLink];
            var w := JobWork(doc, link, s.vars, s.chain.value.context, a);
            JobsAfterStep(doc, s, codes, a, AfterJob(link, s, w, a))
  {
    var link := doc.links[s.nextLink];
    WorkStatuses(doc, link, s.vars, s.chain.value.context, a);
    JobsAfterWork(doc, s, codes, JobWork(doc, link, s.vars, s.chain.value.context, a), a);
  }

  lemma JobsAfterWork(doc: Document, s: State, codes: seq<nat>, w: Work, a: Answers)
    requires SettledUpTo(doc, s, codes, |s.jobs|) && s.chain.Some? && s.nextLink in doc.links
    requires match w.verdict
             case Await(_) => IsDecision(doc.links[s.nextLink]) && w.statuses == [Executing, AwaitingDecision]
             case Fail => w.statuses == [] || w.statuses == [Executing]
             case _ => Settled(doc.links[s.nextLink], a.exitCode, w.statuses)
    ensures JobsAfterStep(doc, s, codes, a, AfterJob(doc.links[s.nextLink], s, w, a))
  {
    if w.statuses != [] {
      JobAdded(doc, s, codes, w, a.exitCode);
      JobsAfterBegun(doc, s, Worked(s, w), codes + [a.exitCode], w, a);
    } else {
      LogOnly(doc, Worked(s, w), codes, |s.jobs|, PackageFailed);
    }
  }

  lemma JobsAfterBegun(doc: Document, s: State, s1: State, codes: seq<nat>, w: Work, a: Answers)
    requires s.chain.Some? && s.nextLink in doc.links && s1 == Worked(s, w) && s1.jobs == s.jobs + [s.nextLink]
    requires SettledUpTo(doc, s1, codes, |s.jobs|) && StatusesOf(s1.log, |s.jobs|) == w.statuses
    requires match w.verdict
             case Await(_) => IsDecision(doc.links[s.nextLink]) && w.statuses == [Executing, AwaitingDecision]
             case Fail => w.statuses == [Executing]
             case _ => Settled(doc.links[s.nextLink], codes[|s.jobs|], w.statuses)
    ensures var step := AfterJob(doc.links[s.nextLink], s, w, a);
            && step.state.jobs == s1.jobs
            && match step.outcome
               case Continue => SettledUpTo(doc, step.state, codes, |step.state.jobs|)
               case Wait(job, _) => job == |step.state.jobs| - 1 && AwaitsLast(doc, step.state, codes)
               case outcome => JobsHold(doc, step.state, codes, Finished(outcome))
  {
    LastStays(doc, s1, codes, Done);
    LastStays(doc, s1, codes, PackageFailed);
  }

  lemma LastStays(doc: Document, s: State, codes: seq<nat>, p: PackageStatus)
    requires |s.jobs| > 0 && SettledUpTo(doc, s, codes, |s.jobs| - 1)
    ensures SettledUpTo(doc, s.(log := s.log + [OfPackage(p)]), codes, |s.jobs| - 1)
    ensures StatusesOf(s.log + [OfPackage(p)], |s.jobs| - 1) == StatusesOf(s.log, |s.jobs| - 1)
  {
    LogOnly(doc, s, codes, |s.jobs| - 1, p);
  }

  /** The last job is a decision that waits. */
  ghost predicate AwaitsLast(doc: Document, s: State, codes: seq<nat>) {
    var n := |s.jobs| - 1;
    && n >= 0 && SettledUpTo(doc, s, codes, n) && s.jobs[n] in doc.links
    && IsDecision(doc.links[s.jobs[n]]) && StatusesOf(s.log, n) == [Executing, AwaitingDecision]
  }

  lemma JobsAfterStart(doc: Document, start: Start, s: State, codes: seq<nat>, a: Answers)
    requires SettledUpTo(doc, s, codes, |s.jobs|)
    ensures JobsAfterStep(doc, s, codes, a, NextStarted(doc, start, s, a))
  {
    if s.nextLink !in doc.chains && s.chain.Some? && s.nextLink in doc.links
       && !doc.links[s.nextLink].runner.UnknownManager? {
      JobsAfterJob(doc, s, codes, a);
    }
  }

  lemma JobsAfterResolve(doc: Document, s: State, codes: seq<nat>, choices: seq<Choice>, r: Resolution)
    requires AwaitsLast(doc, s, codes)
    ensures var p := Resolve(s, |s.jobs| - 1, choices, r);
            p.state.jobs == s.jobs && JobsHold(doc, p.state, codes, p.phase)
  {
    var n := |s.jobs| - 1;
    var p := Resolve(s, n, choices, r);
    if p.phase.Running? {
      forall j ensures StatusesOf(p.state.log, j) == StatusesOf(s.log, j) + if j == n then [Completed] else [] {
        StatusesConcat(s.log, [OfJob(n, Completed)], j);
        OneRead(OfJob(n, Completed), j);
      }
      assert StatusesOf(p.state.log, n) == [Executing, AwaitingDecision, Completed];
    } else {
      assert LastAllowed(doc, p.state, codes);
    }
  }

  lemma JobsAfterNext(doc: Document, start: Start, s: State, codes: seq<nat>, a: Answers)
    requires SettledUpTo(doc, s, codes, |s.jobs|)
    ensures JobsAfterStep(doc, s, codes, a, Next(doc, start, s, a))
  {
    if !a.cancelled && s.nextLink == NIL && a.processing {
      LogOnly(doc, s, codes, |s.jobs|, Processing);
      var s1 := s.(log := s.log + [OfPackage(Processing)]);
      if start.chain in doc.chains {
        JobsAfterStart(doc, start, s1.(nextLink := start.chain), codes, a);
      }
    } else if !a.cancelled && s.nextLink != NIL {
      JobsAfterStart(doc, start, s, codes, a);
    }
  }

  lemma JobsAfterTurn(doc: Document, start: Start, s: State, codes: seq<nat>, t: Turn)
    requires SettledUpTo(doc, s, codes, |s.jobs|)
    ensures var p := Iterate(doc, start, s, t);
            JobsHold(doc, p.state, codes + CodeOf(doc, start, s, t), p.phase)
  {
    var step := Next(doc, start, s, t.answers);
    JobsAfterNext(doc, start, s, codes, t.answers);
    assert codes + [] == codes;
    if step.outcome.Wait? {
      JobsAfterResolve(doc, step.state, codes + [t.answers.exitCode], step.outcome.choices, t.resolution);
    }
  }

  lemma {:induction false} JobsAfterRun(doc: Document, start: Start, s: State, codes: seq<nat>, turns: seq<Turn>)
    requires SettledUpTo(doc, s, codes, |s.jobs|)
    ensures var p := Process(doc, start, s, turns);
            JobsHold(doc, p.state, codes + Codes(doc, start, s, turns), p.phase)
    decreases |turns|
  {
    if turns == [] {
      assert codes + [] == codes;
    } else {
      JobsAfterTurn(doc, start, s, codes, turns[0]);
      var p := Iterate(doc, start, s, turns[0]);
      var code := CodeOf(doc, start, s, turns[0]);
      if p.phase.Running? {
        JobsAfterRun(doc, start, p.state, codes + code, turns[1..]);
        SeqAssoc(codes, code, Codes(doc, start, p.state, turns[1..]));
      } else {
        assert code + [] == code;
      }
    }
  }

  lemma JobHolds(doc: Document, s: State, codes: seq<nat>, phase: Phase, j: nat)
    requires JobsHold(doc, s, codes, phase) && j < |s.jobs|
    ensures |codes| == |s.jobs| && s.jobs[j] in doc.links
    ensures Allowed(doc.links[s.jobs[j]], codes[j], StatusesOf(s.log, j))
    ensures phase.Running? || j < |s.jobs| - 1 ==> Settled(doc.links[s.jobs[j]], codes[j], StatusesOf(s.log, j))
  {
  }

  /** In every run of every document, whatever fails: when a job begins, all jobs before it have one final
      status, written last. A client job has the status that its link gives for the exit code it had; the other
      jobs are completed, decisions possibly after waiting. */
  lemma JobStatuses(doc: Document, start: Start, vars: map<string, Id>, turns: seq<Turn>, j: nat)
    requires j < |Process(doc, start, Initial(vars), turns).state.jobs|
    ensures var p := Process(doc, start, Initial(vars), turns);
            var s, codes := p.state, Codes(doc, start, Initial(vars), turns);
            && |codes| == |s.jobs| && s.jobs[j] in doc.links
            && Allowed(doc.links[s.jobs[j]], codes[j], StatusesOf(s.log, j))
            && (p.phase.Running? || j < |s.jobs| - 1 ==>
                  Settled(doc.links[s.jobs[j]], codes[j], StatusesOf(s.log, j)))
  {
    JobsAfterRun(doc, start, Initial(vars), [], turns);
    assert [] + Codes(doc, start, Initial(vars), turns) == Codes(doc, start, Initial(vars), turns);
    var p := Process(doc, start, Initial(vars), turns);
    JobHolds(doc, p.state, Codes(doc, start, Initial(vars), turns), p.phase, j);
  }

  // ---------------------------------------------------------------- the statuses of the package

  predicate AllProcessing(ps: seq<PackageStatus>) {
    forall p | p in ps :: p == Processing
  }

  /** What ends the log of a run that is over. */
  predicate Closing(log: seq<Event>, outcome: Outcome) {
    || AllProcessing(PackageOf(log))
    || (
      && log != [] && AllProcessing(PackageOf(log[..|log| - 1]))
      && ((log[|log| - 1] == OfPackage(Done) && outcome == EndOfWorkflow)
          || (log[|log| - 1] == OfPackage(PackageFailed) && outcome == Error(JobFailed)))
    )
  }

  predicate PackageHolds(p: Progress) {
    match p.phase
    case Finished(outcome) => Closing(p.state.log, outcome)
    case _ => AllProcessing(PackageOf(p.state.log))
  }

  lemma PackageAfterJob(link: Link, s: State, w: Work, a: Answers)
    requires AllProcessing(PackageOf(s.log)) && s.chain.Some?
    ensures var step := AfterJob(link, s, w, a);
            match step.outcome
            case Continue => AllProcessing(PackageOf(step.state.log))
            case Wait(_, _) => AllProcessing(PackageOf(step.state.log))
            case outcome => Closing(step.state.log, outcome)
  {
    var s1 := Worked(s, w);
    PackageConcat(s.log, Events(|s.jobs|, w.statuses));
    EventsRead(|s.jobs|, w.statuses, 0);
    assert AllProcessing(PackageOf(s1.log));
    assert (s1.log + [OfPackage(Done)])[..|s1.log|] == s1.log;
    assert (s1.log + [OfPackage(PackageFailed)])[..|s1.log|] == s1.log;
  }

  lemma PackageAfterStart(doc: Document, start: Start, s: State, t: Turn)
    requires AllProcessing(PackageOf(s.log))
    ensures var step := NextStarted(doc, start, s, t.answers);
            PackageHolds(match step.outcome
                         case Continue => Progress(step.state, Running)
                         case Wait(job, choices) => Resolve(step.state, job, choices, t.resolution)
                         case _ => Progress(step.state, Finished(step.outcome)))
  {
    var a := t.answers;
    if s.nextLink !in doc.chains && s.chain.Some? && s.nextLink in doc.links
       && !doc.links[s.nextLink].runner.UnknownManager? {
      var link := doc.links[s.nextLink];
      PackageAfterJob(link, s, JobWork(doc, link, s.vars, s.chain.value.context, a), a);
    }
    var step := NextStarted(doc, start, s, a);
    if step.outcome.Wait? {
      PackageConcat(step.state.log, [OfJob(step.outcome.job, Completed)]);
      OneRead(OfJob(step.outcome.job, Completed), 0);
    }
  }

  lemma PackageAfterTurn(doc: Document, start: Start, s: State, t: Turn)
    requires AllProcessing(PackageOf(s.log))
    ensures PackageHolds(Iterate(doc, start, s, t))
  {
    if s.nextLink == NIL {
      var s1 := s.(log := s.log + [OfPackage(Processing)]);
      PackageConcat(s.log, [OfPackage(Processing)]);
      OneRead(OfPackage(Processing), 0);
      PackageAfterStart(doc, start, s1.(nextLink := start.chain), t);
    } else {
      PackageAfterStart(doc, start, s, t);
    }
  }

  /** In every run a package is marked as done or as failed at most once, as the last thing that is written:
      as done only when a last job ends at an End link, as failed only when a job fails. */
  lemma {:induction false} PackageStatuses(doc: Document, start: Start, s: State, turns: seq<Turn>)
    requires AllProcessing(PackageOf(s.log))
    ensures PackageHolds(Process(doc, start, s, turns))
    decreases |turns|
  {
    if turns != [] {
      PackageAfterTurn(doc, start, s, turns[0]);
      var p := Iterate(doc, start, s, turns[0]);
      if p.phase.Running? {
        PackageStatuses(doc, start, p.state, turns[1..]);
      }
    }
  }

  /** The workflow ends only after a client job on an End link whose exit code leads nowhere. */
  lemma EndsAtEndLink(doc: Document, start: Start, s: State, a: Answers)
    requires Next(doc, start, s, a).outcome == EndOfWorkflow
    ensures EndsAt(doc, s.nextLink, a.exitCode)
    ensures Next(doc, start, s, a).state.jobs == s.jobs + [s.nextLink]
  {
  }

  predicate EndsAt(doc: Document, l: Id, code: nat) {
    l in doc.links && doc.links[l].end && doc.links[l].runner.ClientScript? && CodeEnds(doc.links[l], code)
  }

  lemma {:induction false} RunEndsAtEndLink(doc: Document, start: Start, s: State, turns: seq<Turn>)
    requires Process(doc, start, s, turns).phase == Finished(EndOfWorkflow)
    ensures var jobs, codes := Process(doc, start, s, turns).state.jobs, Codes(doc, start, s, turns);
            jobs != [] && codes != [] && EndsAt(doc, jobs[|jobs| - 1], codes[|codes| - 1])
    decreases |turns|
  {
    var p := Iterate(doc, start, s, turns[0]);
    if p.phase.Running? {
      RunEndsAtEndLink(doc, start, p.state, turns[1..]);
    } else {
      EndsAtEndLink(doc, start, s, turns[0].answers);
      assert CodeOf(doc, start, s, turns[0]) + [] == [turns[0].answers.exitCode];
    }
  }

  lemma DoneIsLast(log: seq<Event>, outcome: Outcome)
    requires Closing(log, outcome) && Done in PackageOf(log)
    ensures outcome == EndOfWorkflow
  {
    if !AllProcessing(PackageOf(log)) {
      var last := log[|log| - 1];
      assert log == log[..|log| - 1] + [last];
      PackageConcat(log[..|log| - 1], [last]);
      OneRead(last, 0);
    }
  }

  lemma CodesOfRun(doc: Document, start: Start, vars: map<string, Id>, turns: seq<Turn>)
    ensures |Codes(doc, start, Initial(vars), turns)| == |Process(doc, start, Initial(vars), turns).state.jobs|
  {
    JobsAfterRun(doc, start, Initial(vars), [], turns);
    assert [] + Codes(doc, start, Initial(vars), turns) == Codes(doc, start, Initial(vars), turns);
  }

  /** Over whole runs: a package marked as done ended with a client job on an End link whose exit code, the one
      that job had, leads nowhere. */
  lemma DoneAtEndLink(doc: Document, start: Start, vars: map<string, Id>, turns: seq<Turn>)
    requires Done in PackageOf(Process(doc, start, Initial(vars), turns).state.log)
    ensures var jobs := Process(doc, start, Initial(vars), turns).state.jobs;
            var codes := Codes(doc, start, Initial(vars), turns);
            jobs != [] && |codes| == |jobs| && EndsAt(doc, jobs[|jobs| - 1], codes[|codes| - 1])
  {
    var p := Process(doc, start, Initial(vars), turns);
    PackageStatuses(doc, start, Initial(vars), turns);
    assert p.phase.Finished?;
    DoneIsLast(p.state.log, p.phase.outcome);
    RunEndsAtEndLink(doc, start, Initial(vars), turns);
    CodesOfRun(doc, start, vars, turns);
  }

  // ---------------------------------------------------------------- closed documents

  predicate Known(doc: Document, id: Id) {
    id != NIL && (id in doc.chains || id in doc.links)
  }

  /** Wherever the link leads, the document knows it; jobs that run in the controller lead somewhere. */
  predicate ClosedLink(doc: Document, link: Link) {
    match link.runner
    case ClientScript =>
      && (forall code | code in link.exitCodes && link.exitCodes[code].link.Some? ::
            Known(doc, link.exitCodes[code].link.value))
      && (link.fallbackLink == NIL || Known(doc, link.fallbackLink))
    case SetVariable(_, target) => Known(doc, ExitCodeLink(link, 0)) && (target == NIL || Known(doc, target))
    case GetVariable(_, fallback) => Known(doc, fallback)
    case NextChain(_) => true
    case UpdateContext(_) => Known(doc, ExitCodeLink(link, 0))
    case UnknownManager => true
  }

  predicate Closed(doc: Document, start: Start) {
    && NIL !in doc.chains && start.chain in doc.chains && (start.link == NIL || Known(doc, start.link))
    && (forall c | c in doc.chains :: Known(doc, doc.chains[c]))
    && (forall l | l in doc.links :: ClosedLink(doc, doc.links[l]))
  }

  predicate VarsKnown(doc: Document, vars: map<string, Id>) {
    forall v | v in vars :: vars[v] == NIL || Known(doc, vars[v])
  }

  /** A preconfigured chain is one of the document. */
  predicate Configured(doc: Document, a: Answers) {
    a.preconfigured.Success? && a.preconfigured.value.Some? ==> Known(doc, a.preconfigured.value.value)
  }

  predicate AllKnown(doc: Document, choices: seq<Choice>) {
    forall c | c in choices :: Known(doc, c.nextLink)
  }

  lemma {:induction false} ChainChoicesKnown(doc: Document, choices: seq<Id>)
    requires NIL !in doc.chains
    ensures forall c | c in ChainChoices(doc, choices) :: c.nextLink in choices && c.nextLink in doc.chains
    ensures AllKnown(doc, ChainChoices(doc, choices))
  {
    if choices != [] {
      ChainChoicesKnown(doc, choices[1..]);
    }
  }

  lemma {:induction false} ContextChoicesKnown(replacements: seq<Option<(string, string)>>, next: Id)
    ensures |ContextChoices(replacements, next)| == |replacements|
    ensures forall i | 0 <= i < |replacements| :: ContextChoices(replacements, next)[i] == Choice(replacements[i], next)
  {
    if replacements != [] {
      ContextChoicesKnown(replacements[1..], next);
    }
  }

  predicate WorkKnown(doc: Document, w: Work) {
    && VarsKnown(doc, w.vars)
    && (w.verdict.Go? ==> Known(doc, w.verdict.next))
    && (w.verdict.Await? ==> AllKnown(doc, w.verdict.choices))
  }

  lemma RunnerClosed(doc: Document, link: Link, vars: map<string, Id>, context: map<string, string>, a: Answers)
    requires NIL !in doc.chains && ClosedLink(doc, link) && VarsKnown(doc, vars) && Configured(doc, a)
    ensures WorkKnown(doc, RunnerWork(doc, link, vars, context, a))
  {
    match link.runner
    case NextChain(choices) => ChainChoicesKnown(doc, choices);
    case UpdateContext(replacements) => ContextChoicesKnown(replacements, ExitCodeLink(link, 0));
    case _ =>
  }

  lemma JobClosed(doc: Document, link: Link, vars: map<string, Id>, context: map<string, string>, a: Answers)
    requires NIL !in doc.chains && ClosedLink(doc, link) && VarsKnown(doc, vars) && Configured(doc, a)
    ensures WorkKnown(doc, JobWork(doc, link, vars, context, a))
  {
    RunnerClosed(doc, link, vars, context, a);
  }

  predicate Started(doc: Document, s: State) {
    && VarsKnown(doc, s.vars) && s.chain.Some? && Known(doc, s.nextLink)
    && s.log != [] && PackageOf(s.log) == [Processing] && s.log[0] == OfPackage(Processing)
  }

  ghost predicate StartedOr(doc: Document, s: State, vars: map<string, Id>) {
    s == Initial(vars) || Started(doc, s)
  }

  predicate Missing(p: Phase) {
    p == Finished(Error(NoChain)) || p == Finished(Error(NoLink))
  }

  /** At most one start, and that comes first. */
  predicate OneStart(log: seq<Event>) {
    var ps := PackageOf(log);
    ps == [] || (ps[0] == Processing && Processing !in ps[1..])
  }

  lemma OneStartThen(log: seq<Event>, e: Event)
    requires PackageOf(log) == [Processing] && e != OfPackage(Processing)
    ensures OneStart(log + [e]) && (e.OfJob? ==> PackageOf(log + [e]) == [Processing])
  {
    PackageConcat(log, [e]);
    OneRead(e, 0);
  }

  lemma ClosedAfterStart(doc: Document, start: Start, s: State, t: Turn)
    requires Closed(doc, start) && Configured(doc, t.answers) && VarsKnown(doc, s.vars) && Known(doc, s.nextLink)
    requires s.chain.Some? || s.nextLink in doc.chains
    requires s.log != [] && PackageOf(s.log) == [Processing] && s.log[0] == OfPackage(Processing)
    ensures var step := NextStarted(doc, start, s, t.answers);
            && step.outcome != Error(NoChain) && step.outcome != Error(NoLink)
            && OneStart(step.state.log)
            && (step.outcome.Continue? ==> Started(doc, step.state))
            && (step.outcome.Wait? ==> Started(doc, step.state) && AllKnown(doc, step.outcome.choices))
  {
    if s.nextLink !in doc.chains {
      var link := doc.links[s.nextLink];
      JobClosed(doc, link, s.vars, s.chain.value.context, t.answers);
      ClosedAfterJob(doc, link, s, JobWork(doc, link, s.vars, s.chain.value.context, t.answers), t.answers);
    }
  }

  lemma ClosedAfterJob(doc: Document, link: Link, s: State, w: Work, a: Answers)
    requires WorkKnown(doc, w) && Known(doc, s.nextLink) && s.chain.Some?
    requires s.log != [] && PackageOf(s.log) == [Processing] && s.log[0] == OfPackage(Processing)
    ensures var step := AfterJob(link, s, w, a);
            && step.outcome != Error(NoChain) && step.outcome != Error(NoLink)
            && OneStart(step.state.log)
            && (step.outcome.Continue? ==> Started(doc, step.state))
            && (step.outcome.Wait? ==> Started(doc, step.state) && AllKnown(doc, step.outcome.choices))
  {
    PackageConcat(s.log, Events(|s.jobs|, w.statuses));
    EventsRead(|s.jobs|, w.statuses, 0);
    OneStartThen(Worked(s, w).log, OfPackage(Done));
    OneStartThen(Worked(s, w).log, OfPackage(PackageFailed));
  }

  lemma ClosedAfterResolve(doc: Document, s: State, job: nat, choices: seq<Choice>, r: Resolution)
    requires Started(doc, s) && AllKnown(doc, choices)
    ensures var p := Resolve(s, job, choices, r);
            !Missing(p.phase) && OneStart(p.state.log) && (p.phase.Running? ==> Started(doc, p.state))
  {
    OneStartThen(s.log, OfJob(job, Completed));
  }

  lemma ClosedAfterTurn(doc: Document, start: Start, vars: map<string, Id>, s: State, t: Turn)
    requires Closed(doc, start) && Configured(doc, t.answers) && VarsKnown(doc, vars) && StartedOr(doc, s, vars)
    ensures var p := Iterate(doc, start, s, t);
            !Missing(p.phase) && OneStart(p.state.log) && (p.phase.Running? ==> Started(doc, p.state))
  {
    var s1 := if s.nextLink == NIL then s.(log := s.log + [OfPackage(Processing)], nextLink := start.chain) else s;
    if s.nextLink == NIL {
      assert s.log + [OfPackage(Processing)] == [OfPackage(Processing)];
      OneRead(OfPackage(Processing), 0);
    }
    ClosedAfterStart(doc, start, s1, t);
    var step := NextStarted(doc, start, s1, t.answers);
    if step.outcome.Wait? {
      ClosedAfterResolve(doc, step.state, step.outcome.job, step.outcome.choices, t.resolution);
    }
  }

  /** In a closed document no run misses a chain or a link, and the package is marked as processing once, by
      the first iteration. */
  lemma {:induction false} ClosedRuns(doc: Document, start: Start, vars: map<string, Id>, s: State, turns: seq<Turn>)
    requires Closed(doc, start) && VarsKnown(doc, vars) && StartedOr(doc, s, vars)
    requires forall t | t in turns :: Configured(doc, t.answers)
    ensures var p := Process(doc, start, s, turns);
            && !Missing(p.phase) && OneStart(p.state.log)
            && (p.phase.Running? && turns != [] ==> Started(doc, p.state))
    decreases |turns|
  {
    if turns != [] {
      ClosedAfterTurn(doc, start, vars, s, turns[0]);
      var p := Iterate(doc, start, s, turns[0]);
      if p.phase.Running? {
        ClosedRuns(doc, start, vars, p.state, turns[1..]);
      }
    }
  }

  /** No job of the link can end with the nil link as its next one. */
  predicate LeadsOn(link: Link) {
    match link.runner
    case ClientScript =>
      forall code | code in link.exitCodes && link.exitCodes[code].status.Some? ::
        link.exitCodes[code].link != Some(NIL)
    case SetVariable(_, target) => target == NIL || ExitCodeLink(link, 0) != NIL
    case GetVariable(_, fallback) => fallback != NIL
    case UpdateContext(_) => ExitCodeLink(link, 0) != NIL
    case _ => true
  }

  /** No chain and no link that can be reached as a link is without a next one. */
  predicate AllLeadOn(doc: Document, start: Start) {
    && (forall c | c in doc.chains :: Entered(doc, start, c) != NIL)
    && (forall l | l in doc.links && l != NIL && l !in doc.chains :: LeadsOn(doc.links[l]))
  }

  /** No preconfigured chain is the nil identifier. */
  predicate Preset(t: Turn) {
    t.answers.preconfigured != Success(Some(NIL))
  }

  /** Once started, no turn sends the iterator back to the start. */
  ghost predicate NeverRestarts(doc: Document, start: Start) {
    forall s: State, t: Turn | s.nextLink != NIL && s.chain.Some? && Preset(t) :: GoesOn(Iterate(doc, start, s, t))
  }

  predicate GoesOn(p: Progress) {
    p.phase.Running? ==> p.state.nextLink != NIL
  }

  predicate NoneNil(choices: seq<Choice>) {
    forall c | c in choices :: c.nextLink != NIL
  }

  lemma RunnerGoesOn(doc: Document, link: Link, vars: map<string, Id>, context: map<string, string>, a: Answers)
    requires NIL !in doc.chains && LeadsOn(link) && a.preconfigured != Success(Some(NIL))
    ensures var w := RunnerWork(doc, link, vars, context, a);
            (w.verdict.Go? ==> w.verdict.next != NIL) && (w.verdict.Await? ==> NoneNil(w.verdict.choices))
  {
    match link.runner
    case NextChain(choices) => ChainChoicesKnown(doc, choices);
    case UpdateContext(replacements) => ContextChoicesKnown(replacements, ExitCodeLink(link, 0));
    case _ =>
  }

  lemma TurnGoesOn(doc: Document, start: Start, s: State, t: Turn)
    requires NIL !in doc.chains && AllLeadOn(doc, start) && Preset(t) && s.nextLink != NIL && s.chain.Some?
    ensures GoesOn(Iterate(doc, start, s, t))
  {
    if s.nextLink !in doc.chains && s.nextLink in doc.links {
      RunnerGoesOn(doc, doc.links[s.nextLink], s.vars, s.chain.value.context, t.answers);
    }
  }

  /** Everything outside goes well, with the given exit code and settings. */
  function Answering(code: nat, settings: map<string, string>): Turn {
    Turn(
      Answers(false, true, Some(map[]), true, true, code, true, true, Success(None), Success(settings), true, true),
      Abandoned)
  }

  function At(id: Id): State {
    State(id, Some(Chain(id, map[])), map[], [], [])
  }

  lemma EnteredNil(doc: Document, start: Start, c: Id)
    requires NIL !in doc.chains && c in doc.chains && Entered(doc, start, c) == NIL
    ensures !GoesOn(Iterate(doc, start, At(c), Answering(0, map[])))
  {
  }

  /** With these variables the link leads on. */
  predicate LeadsOnWith(link: Link, vars: map<string, Id>) {
    if link.runner.GetVariable? then VariableLink(vars, link.runner.variable, link.runner.link) != NIL
    else LeadsOn(link)
  }

  lemma StuckLinkTurn(doc: Document, link: Link, vars: map<string, Id>, context: map<string, string>)
    returns (t: Turn)
    requires !LeadsOnWith(link, vars)
    ensures Preset(t) && t.answers.processing && !t.answers.cancelled && !link.runner.UnknownManager?
    ensures JobWork(doc, link, vars, context, t.answers).verdict == Go(NIL)
  {
    t := Answering(0, map["key" := "value"]);
    if link.runner.ClientScript? {
      var code :| code in link.exitCodes && link.exitCodes[code].status.Some? && link.exitCodes[code].link == Some(NIL);
      t := Answering(code, map[]);
    } else if link.runner.UpdateContext? {
      assert "key" in t.answers.settings.value;
    }
  }

  lemma LinkNil(doc: Document, start: Start, l: Id) returns (t: Turn)
    requires l in doc.links && l != NIL && l !in doc.chains && !LeadsOn(doc.links[l])
    ensures Preset(t) && !GoesOn(Iterate(doc, start, At(l), t))
  {
    t := StuckLinkTurn(doc, doc.links[l], map[], map[]);
  }

  /** A started iterator never goes back to the start exactly if every chain and every link of the document
      leads on: the job kinds that run in the controller need a next link, and no exit code may name the nil
      link. */
  lemma NeverRestartsExactly(doc: Document, start: Start)
    requires NIL !in doc.chains
    ensures NeverRestarts(doc, start) <==> AllLeadOn(doc, start)
  {
    if AllLeadOn(doc, start) {
      forall s: State, t: Turn | s.nextLink != NIL && s.chain.Some? && Preset(t)
        ensures GoesOn(Iterate(doc, start, s, t))
      {
        TurnGoesOn(doc, start, s, t);
      }
    } else if c :| c in doc.chains && Entered(doc, start, c) == NIL {
      EnteredNil(doc, start, c);
      assert Preset(Answering(0, map[])) && At(c).nextLink != NIL && At(c).chain.Some?;
    } else {
      var l :| l in doc.links && l != NIL && l !in doc.chains && !LeadsOn(doc.links[l]);
      var t := LinkNil(doc, start, l);
      assert At(l).nextLink != NIL && At(l).chain.Some?;
    }
  }

  /** A closed document is such. */
  lemma ClosedLeadsOn(doc: Document, start: Start)
    requires Closed(doc, start)
    ensures AllLeadOn(doc, start)
  {
    forall l | l in doc.links ensures LeadsOn(doc.links[l]) {
      assert ClosedLink(doc, doc.links[l]);
    }
    forall c | c in doc.chains ensures Entered(doc, start, c) != NIL {
      assert Known(doc, doc.chains[c]);
    }
  }

  /** The iterator has been started, once. */
  predicate Begun(s: State) {
    s.nextLink != NIL && s.chain.Some? && PackageOf(s.log) == [Processing]
  }

  lemma OneStartAfterStart(doc: Document, start: Start, s: State, a: Answers)
    requires PackageOf(s.log) == [Processing]
    ensures var step := NextStarted(doc, start, s, a);
            && OneStart(step.state.log)
            && (step.outcome.Continue? || step.outcome.Wait?
              ==> step.state.chain.Some? && PackageOf(step.state.log) == [Processing])
  {
    if s.nextLink !in doc.chains && s.chain.Some? && s.nextLink in doc.links {
      var w := JobWork(doc, doc.links[s.nextLink], s.vars, s.chain.value.context, a);
      PackageConcat(s.log, Events(|s.jobs|, w.statuses));
      EventsRead(|s.jobs|, w.statuses, 0);
      OneStartThen(Worked(s, w).log, OfPackage(Done));
      OneStartThen(Worked(s, w).log, OfPackage(PackageFailed));
    }
  }

  lemma OneStartAfterTurn(doc: Document, start: Start, vars: map<string, Id>, s: State, t: Turn)
    requires NIL !in doc.chains && AllLeadOn(doc, start) && start.chain != NIL && Preset(t)
    requires s == Initial(vars) || Begun(s)
    ensures var p := Iterate(doc, start, s, t);
            OneStart(p.state.log) && (p.phase.Running? ==> Begun(p.state))
  {
    var s1 := if s.nextLink == NIL then s.(log := s.log + [OfPackage(Processing)], nextLink := start.chain) else s;
    if s.nextLink == NIL {
      assert s1.log == [OfPackage(Processing)];
      OneRead(OfPackage(Processing), 0);
    } else {
      TurnGoesOn(doc, start, s, t);
    }
    OneStartAfterStart(doc, start, s1, t.answers);
    var step := NextStarted(doc, start, s1, t.answers);
    if step.outcome.Wait? {
      OneStartThen(step.state.log, OfJob(step.outcome.job, Completed));
    }
  }

  /** So in every run of a document that leads on, whatever fails and even if links are missing, the package is
      marked as processing at most once. */
  lemma {:induction false} StartsOnce(doc: Document, start: Start, vars: map<string, Id>, s: State, turns: seq<Turn>)
    requires NIL !in doc.chains && AllLeadOn(doc, start) && start.chain != NIL && forall t | t in turns :: Preset(t)
    requires s == Initial(vars) || Begun(s)
    ensures OneStart(Process(doc, start, s, turns).state.log)
    decreases |turns|
  {
    if turns != [] {
      OneStartAfterTurn(doc, start, vars, s, turns[0]);
      var p := Iterate(doc, start, s, turns[0]);
      if p.phase.Running? {
        StartsOnce(doc, start, vars, p.state, turns[1..]);
      }
    }
  }

  /** A job in the controller that has nowhere to go sends the iterator back to the start: the package is
      marked as processing again. */
  lemma RestartsWithoutLink()
    ensures var doc := Document(map[1 := 2], map[2 := Link(GetVariable("next", NIL), map[], None, NIL, false)]);
            var a := Answers(false, true, Some(map[]), true, true, 0, true, true, Success(None), Success(map[]), true,
                             true);
            var t := Turn(a, Abandoned);
            var p := Process(doc, Start(1, NIL), Initial(map[]), [t, t, t]);
            p.phase.Running? && PackageOf(p.state.log) == [Processing, Processing]
  {
    var link := Link(GetVariable("next", NIL), map[], None, NIL, false);
    var doc := Document(map[1 := 2], map[2 := link]);
    var a := Answers(false, true, Some(map[]), true, true, 0, true, true, Success(None), Success(map[]), true, true);
    var t, start := Turn(a, Abandoned), Start(1, NIL);
    var s1 := State(2, Some(Chain(1, map[])), map[], [], [OfPackage(Processing)]);
    assert Iterate(doc, start, Initial(map[]), t) == Progress(s1, Running);
    var w := JobWork(doc, link, map[], map[], a);
    assert w == Work([Executing, Completed], map[], map[], Go(NIL));
    EventsOneMore(0, [Executing], Completed);
    var s2 := Worked(s1, w).(nextLink := NIL);
    assert Iterate(doc, start, s1, t) == Progress(s2, Running);
    var s3 := s2.(log := s2.log + [OfPackage(Processing)], nextLink := 2, chain := Some(Chain(1, map[])));
    assert Iterate(doc, start, s2, t) == Progress(s3, Running);
    assert [t, t, t][1..] == [t, t] && [t, t][1..] == [t] && [t][1..] == [];
    assert Process(doc, start, s2, [t]) == Progress(s3, Running);
    assert Process(doc, start, s1, [t, t]) == Progress(s3, Running);
    PackageConcat(s2.log, [OfPackage(Processing)]);
    PackageConcat(s1.log, Events(0, w.statuses));
    EventsRead(0, w.statuses, 0);
    OneRead(OfPackage(Processing), 0);
  }

  // ---------------------------------------------------------------- decisions

  predicate ResumesChain(doc: Document, choices: seq<Id>, pos: nat, next: Id) {
    && pos < |ChainChoices(doc, choices)| && next == ChainChoices(doc, choices)[pos].nextLink
    && next in choices && next in doc.chains
  }

  predicate HoldsValue(replacements: seq<Option<(string, string)>>, pos: nat, chain: Option<Chain>) {
    && pos < |replacements| && chain.Some?
    && (replacements[pos].Some? && replacements[pos].value.0 != "" ==>
          var key := KeyOf(replacements[pos].value.0);
          key in chain.value.context && chain.value.context[key] == replacements[pos].value.1)
  }

  /** A resolved decision resumes exactly at the link of the chosen choice: the chain chosen by a next-chain
      job, or the way on from a job that updates the context, with the value of the choice in the context. */
  lemma DecisionResumes(doc: Document, start: Start, s: State, t: Turn)
    requires s.nextLink in doc.links && Next(doc, start, s, t.answers).outcome.Wait?
    requires t.resolution.Position? && t.resolution.recorded
    requires t.resolution.pos < |Next(doc, start, s, t.answers).outcome.choices|
    requires s.nextLink != NIL && NIL !in doc.chains
    ensures var link := doc.links[s.nextLink];
            var pos := t.resolution.pos;
            var p := Iterate(doc, start, s, t);
            && p.phase.Running?
            && IsDecision(link)
            && (link.runner.NextChain? ==> ResumesChain(doc, link.runner.choices, pos, p.state.nextLink))
            && (link.runner.UpdateContext? ==>
                  p.state.nextLink == ExitCodeLink(link, 0) && HoldsValue(link.runner.replacements, pos, p.state.chain))
  {
    var link := doc.links[s.nextLink];
    match link.runner
    case NextChain(choices) =>
      ChainChoicesKnown(doc, choices);
      assert ChainChoices(doc, choices)[t.resolution.pos] in ChainChoices(doc, choices);
    case UpdateContext(replacements) => ContextChoicesKnown(replacements, ExitCodeLink(link, 0));
    case _ =>
  }

  // ---------------------------------------------------------------- acyclic documents

  /** A rank for every chain and link, and for every variable a bound on the links stored in it. */
  datatype Ranking = Ranking(rank: Id -> nat, bound: string -> nat)

  predicate AllBelow(r: Ranking, ids: seq<Id>, n: nat) {
    forall c | c in ids :: r.rank(c) < n
  }

  predicate RankedLink(doc: Document, r: Ranking, l: Id)
    requires l in doc.links
  {
    var link := doc.links[l];
    match link.runner
    case ClientScript =>
      && (forall code | code in link.exitCodes && link.exitCodes[code].link.Some? ::
            r.rank(link.exitCodes[code].link.value) < r.rank(l))
      && (link.fallbackLink == NIL || r.rank(link.fallbackLink) < r.rank(l))
    case SetVariable(v, target) =>
      target == NIL || (r.rank(ExitCodeLink(link, 0)) < r.rank(l) && r.rank(target) <= r.bound(v))
    case GetVariable(v, fallback) => r.rank(fallback) < r.rank(l) && r.bound(v) < r.rank(l)
    case NextChain(choices) => AllBelow(r, choices, r.rank(l))
    case UpdateContext(_) => r.rank(ExitCodeLink(link, 0)) < r.rank(l)
    case UnknownManager => true
  }

  /** Every step the document allows lowers the rank. */
  ghost predicate Ranked(doc: Document, start: Start, r: Ranking) {
    && (forall c | c in doc.chains :: r.rank(Entered(doc, start, c)) < r.rank(c))
    && (forall l | l in doc.links :: RankedLink(doc, r, l))
  }

  ghost predicate VarsRanked(r: Ranking, vars: map<string, Id>) {
    forall v | v in vars && vars[v] != NIL :: r.rank(vars[v]) <= r.bound(v)
  }

  /** A preconfigured chain is one of the choices. */
  predicate Offered(doc: Document, a: Answers, l: Id)
    requires l in doc.links
  {
    doc.links[l].runner.NextChain? && a.preconfigured.Success? && a.preconfigured.value.Some?
    ==> a.preconfigured.value.value in doc.links[l].runner.choices
  }

  ghost predicate WorkRanked(r: Ranking, w: Work, n: nat) {
    && VarsRanked(r, w.vars)
    && (w.verdict.Go? ==> r.rank(w.verdict.next) < n)
    && (w.verdict.Await? ==> forall c | c in w.verdict.choices :: r.rank(c.nextLink) < n)
  }

  lemma RunnerRanked(doc: Document, r: Ranking, l: Id, vars: map<string, Id>, context: map<string, string>, a: Answers)
    requires l in doc.links && RankedLink(doc, r, l) && VarsRanked(r, vars) && Offered(doc, a, l) && NIL !in doc.chains
    ensures WorkRanked(r, RunnerWork(doc, doc.links[l], vars, context, a), r.rank(l))
  {
    var link := doc.links[l];
    match link.runner
    case NextChain(choices) => ChainChoicesKnown(doc, choices);
    case UpdateContext(replacements) => ContextChoicesLead(replacements, ExitCodeLink(link, 0));
    case ClientScript => ClientRanked(link, r, l, a.exitCode);
    case _ =>
  }

  lemma ContextChoicesLead(replacements: seq<Option<(string, string)>>, next: Id)
    ensures forall c | c in ContextChoices(replacements, next) :: c.nextLink == next
  {
    ContextChoicesKnown(replacements, next);
  }

  lemma ClientRanked(link: Link, r: Ranking, l: Id, code: nat)
    requires link.runner.ClientScript? && (link.fallbackLink == NIL || r.rank(link.fallbackLink) < r.rank(l))
    requires forall code | code in link.exitCodes && link.exitCodes[code].link.Some? ::
               r.rank(link.exitCodes[code].link.value) < r.rank(l)
    ensures ClientVerdict(link, code).Go? ==> r.rank(ClientVerdict(link, code).next) < r.rank(l)
  {
  }

  lemma JobRanked(doc: Document, r: Ranking, l: Id, vars: map<string, Id>, context: map<string, string>, a: Answers)
    requires l in doc.links && RankedLink(doc, r, l) && VarsRanked(r, vars) && Offered(doc, a, l) && NIL !in doc.chains
    ensures WorkRanked(r, JobWork(doc, doc.links[l], vars, context, a), r.rank(l))
  {
    RunnerRanked(doc, r, l, vars, context, a);
  }

  lemma {:induction false} StartRanked(doc: Document, start: Start, r: Ranking, s: State, a: Answers)
    requires Ranked(doc, start, r) && NIL !in doc.chains && VarsRanked(r, s.vars)
    requires forall l | l in doc.links :: Offered(doc, a, l)
    ensures var step := NextStarted(doc, start, s, a);
            && (step.outcome.Continue? || step.outcome.Wait? ==> VarsRanked(r, step.state.vars))
            && (step.outcome.Continue? ==> r.rank(step.state.nextLink) < r.rank(s.nextLink))
            && (step.outcome.Wait? ==>
                  forall c | c in step.outcome.choices :: r.rank(c.nextLink) < r.rank(s.nextLink))
  {
    if s.nextLink !in doc.chains && s.chain.Some? && s.nextLink in doc.links {
      JobRanked(doc, r, s.nextLink, s.vars, s.chain.value.context, a);
    }
  }

  lemma {:induction false} TurnRanked(doc: Document, start: Start, r: Ranking, s: State, t: Turn)
    requires Ranked(doc, start, r) && NIL !in doc.chains && VarsRanked(r, s.vars)
    requires forall l | l in doc.links :: Offered(doc, t.answers, l)
    ensures var p := Iterate(doc, start, s, t);
            var from := if s.nextLink == NIL then start.chain else s.nextLink;
            p.phase.Running? ==> VarsRanked(r, p.state.vars) && r.rank(p.state.nextLink) < r.rank(from)
  {
    var s1 := if s.nextLink == NIL then s.(log := s.log + [OfPackage(Processing)], nextLink := start.chain) else s;
    StartRanked(doc, start, r, s1, t.answers);
  }

  /** A closed document with a ranking is processed to an end: no run takes more iterations than the rank of
      the chain it starts with. */
  lemma {:induction false} RunsEnd(
    doc: Document, start: Start, r: Ranking, vars: map<string, Id>, s: State, turns: seq<Turn>)
    requires Closed(doc, start) && Ranked(doc, start, r) && VarsKnown(doc, vars) && StartedOr(doc, s, vars)
    requires VarsRanked(r, s.vars)
    requires forall t | t in turns ::
               Configured(doc, t.answers) && forall l | l in doc.links :: Offered(doc, t.answers, l)
    requires Process(doc, start, s, turns).phase.Running?
    ensures |turns| <= r.rank(if s.nextLink == NIL then start.chain else s.nextLink)
    decreases |turns|
  {
    if turns != [] {
      ClosedAfterTurn(doc, start, vars, s, turns[0]);
      TurnRanked(doc, start, r, s, turns[0]);
      RunsEnd(doc, start, r, vars, Iterate(doc, start, s, turns[0]).state, turns[1..]);
    }
  }
}
