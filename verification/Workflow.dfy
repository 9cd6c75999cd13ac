/** The interpreter of a workflow document: chains, links and the jobs they run
    (internal/controller/iterator.go, jobs.go, jobs_client.go, jobs_local.go, jobs_decision.go). */
module Workflow {
  import opened Text

  type Id = nat

  const NIL: Id := 0

  // ---------------------------------------------------------------- the document

  /** The statuses the store knows; a name it does not know makes the update fail. */
  datatype Status = Unknown | AwaitingDecision | Completed | Executing | Failed

  datatype ExitCode = ExitCode(status: Option<Status>, link: Option<Id>)

  datatype Runner =
    | ClientScript
    | SetVariable(variable: string, link: Id)
    | GetVariable(variable: string, link: Id)
    | NextChain(choices: seq<Id>)
    | UpdateContext(replacements: seq<Option<(string, string)>>)
    | UnknownManager

  datatype Link = Link(
    runner: Runner, exitCodes: map<nat, ExitCode>, fallbackStatus: Option<Status>, fallbackLink: Id, end: bool)

  /** Chains give their first link. */
  datatype Document = Document(chains: map<Id, Id>, links: map<Id, Link>)

  function StatusOf(link: Link, code: nat): Option<Status> {
    if code in link.exitCodes then link.exitCodes[code].status else link.fallbackStatus
  }

  /** exitCodeLinkID. */
  function ExitCodeLink(link: Link, code: nat): Id {
    var found :=
      if code in link.exitCodes && link.exitCodes[code].link.Some? then link.exitCodes[code].link.value else NIL;
    if found == NIL then link.fallbackLink else found
  }

  // ---------------------------------------------------------------- one job

  /** What the outside world answers during one iteration: whether each write succeeds, and what is read. */
  datatype Answers = Answers(
    cancelled: bool, processing: bool, loaded: Option<map<string, string>>, created: bool, submitted: bool,
    exitCode: nat, updated: bool, stored: bool, preconfigured: Result<Option<Id>>,
    settings: Result<map<string, string>>, recorded: bool, marked: bool)

  /** A choice of a decision: the value it puts into the context, if any, and where to go on. */
  datatype Choice = Choice(value: Option<(string, string)>, nextLink: Id)

  datatype Verdict = Go(next: Id) | Eof | Await(choices: seq<Choice>) | Fail

  /** What a job leaves behind: the statuses written for it, the variables of the package and the context
      of the chain. */
  datatype Work = Work(
    statuses: seq<Status>, vars: map<string, Id>, context: map<string, string>, verdict: Verdict)

  function ChainChoices(doc: Document, choices: seq<Id>): seq<Choice> {
    if choices == [] then []
    else if choices[0] in doc.chains then [Choice(None, choices[0])] + ChainChoices(doc, choices[1..])
    else ChainChoices(doc, choices[1..])
  }

  function ContextChoices(replacements: seq<Option<(string, string)>>, next: Id): seq<Choice> {
    if replacements == [] then []
    else [Choice(replacements[0], next)] + ContextChoices(replacements[1..], next)
  }

  predicate AnyChain(doc: Document, choices: seq<Id>) {
    choices != [] && (choices[0] in doc.chains || AnyChain(doc, choices[1..]))
  }

  /** The exit code decides the status and where to go on. */
  function ClientVerdict(link: Link, code: nat): Verdict {
    if code in link.exitCodes then
      match link.exitCodes[code].link
      case None => Eof
      case Some(next) => Go(next)
    else if link.fallbackLink == NIL then Eof
    else Go(link.fallbackLink)
  }

  function VariableLink(vars: map<string, Id>, variable: string, fallback: Id): Id {
    if variable in vars && vars[variable] != NIL then vars[variable] else fallback
  }

  /** The runner of the job, before its completion or waiting is recorded; for a client job the status of the
      exit code is. */
  function RunnerWork(
    doc: Document, link: Link, vars: map<string, Id>, context: map<string, string>, a: Answers): Work
  {
    match link.runner
    case ClientScript =>
      if !a.submitted || !a.updated || StatusOf(link, a.exitCode).None? then Work([], vars, context, Fail)
      else Work([StatusOf(link, a.exitCode).value], vars, context, ClientVerdict(link, a.exitCode))
    case SetVariable(variable, target) =>
      if !a.stored || target == NIL then Work([], vars, context, Fail)
      else Work([], vars[variable := target], context, Go(ExitCodeLink(link, 0)))
    case GetVariable(variable, fallback) =>
      if !a.stored then Work([], vars, context, Fail)
      else Work([], vars, context, Go(VariableLink(vars, variable, fallback)))
    case NextChain(choices) =>
      (match a.preconfigured
       case Failure(_) => Work([], vars, context, Fail)
       case Success(Some(chain)) =>
         Work([], vars, context, if AnyChain(doc, choices) then Go(chain) else Fail)
       case Success(None) => Work([], vars, context, Await(ChainChoices(doc, choices))))
    case UpdateContext(replacements) =>
      (match a.settings
       case Failure(_) => Work([], vars, context, Fail)
       case Success(values) =>
         if values != map[] then Work([], vars, context + values, Go(ExitCodeLink(link, 0)))
         else Work([], vars, context, Await(ContextChoices(replacements, ExitCodeLink(link, 0)))))
    case UnknownManager => Work([], vars, context, Fail)
  }

  /** job.exec: creates the job, runs it, and records that it waits or, unless its status is final, that it is
      complete. */
  function JobWork(doc: Document, link: Link, vars: map<string, Id>, context: map<string, string>, a: Answers): Work {
    if !a.created then Work([], vars, context, Fail)
    else
      var w := RunnerWork(doc, link, vars, context, a);
      var begun := w.(statuses := [Executing] + w.statuses);
      if w.verdict.Await? then
        if a.recorded then begun.(statuses := begun.statuses + [AwaitingDecision]) else begun.(verdict := Fail)
      else if w.verdict.Go? && !link.runner.ClientScript? then
        if a.recorded then begun.(statuses := begun.statuses + [Completed]) else begun.(verdict := Fail)
      else begun
  }

  // ---------------------------------------------------------------- the iterator

  datatype PackageStatus = Processing | Done | PackageFailed

  datatype Event = OfPackage(p: PackageStatus) | OfJob(job: nat, s: Status)

  datatype Chain = Chain(id: Id, context: map<string, string>)

  /** jobs are the links of the jobs begun so far; the log is every status written, in order. */
  datatype State = State(
    nextLink: Id, chain: Option<Chain>, vars: map<string, Id>, jobs: seq<Id>, log: seq<Event>)

  datatype Reason = Cancelled | StoreError | NoChain | NoLink | NoManager | JobFailed

  datatype Outcome =
    Continue | Wait(job: nat, choices: seq<Choice>) | EndOfWorkflow | EndOfChain | Error(reason: Reason)

  datatype Step = Step(state: State, outcome: Outcome)

  /** Where processing starts: a chain, and a link if part of the chain is bypassed. */
  datatype Start = Start(chain: Id, link: Id)

  function Events(job: nat, statuses: seq<Status>): seq<Event> {
    if statuses == [] then [] else [OfJob(job, statuses[0])] + Events(job, statuses[1..])
  }

  function Entered(doc: Document, start: Start, chain: Id): Id
    requires chain in doc.chains
  {
    if chain == start.chain && start.link != NIL then start.link else doc.chains[chain]
  }

  function Next(doc: Document, start: Start, s: State, a: Answers): Step {
    if a.cancelled then Step(s, Error(Cancelled))
    else if s.nextLink == NIL then
      if !a.processing then Step(s, Error(StoreError))
      else
        var s1 := s.(log := s.log + [OfPackage(Processing)]);
        if start.chain !in doc.chains then Step(s1, Error(NoChain))
        else NextStarted(doc, start, s1.(nextLink := start.chain), a)
    else NextStarted(doc, start, s, a)
  }

  function NextStarted(doc: Document, start: Start, s: State, a: Answers): Step {
    if s.nextLink in doc.chains then
      match a.loaded
      case None => Step(s.(chain := Some(Chain(s.nextLink, map[]))), Error(StoreError))
      case Some(context) =>
        Step(s.(chain := Some(Chain(s.nextLink, context)), nextLink := Entered(doc, start, s.nextLink)), Continue)
    else if s.chain.None? then Step(s, Error(NoChain))
    else if s.nextLink !in doc.links then Step(s, Error(NoLink))
    else if doc.links[s.nextLink].runner.UnknownManager? then Step(s, Error(NoManager))
    else
      var link := doc.links[s.nextLink];
      AfterJob(link, s, JobWork(doc, link, s.vars, s.chain.value.context, a), a)
  }

  /** The state once the job has run; a job that could not be created leaves no trace. */
  function Worked(s: State, w: Work): State
    requires s.chain.Some?
  {
    var kept := s.(vars := w.vars, chain := Some(s.chain.value.(context := w.context)));
    if w.statuses == [] then kept
    else kept.(jobs := s.jobs + [s.nextLink], log := s.log + Events(|s.jobs|, w.statuses))
  }

  function AfterJob(link: Link, s: State, w: Work, a: Answers): Step
    requires s.chain.Some?
  {
    var s1 := Worked(s, w);
    match w.verdict
    case Go(next) => Step(s1.(nextLink := next), Continue)
    case Await(choices) => Step(s1, Wait(|s.jobs|, choices))
    case Eof =>
      if link.end then Step(if a.marked then s1.(log := s1.log + [OfPackage(Done)]) else s1, EndOfWorkflow)
      else Step(s1, EndOfChain)
    case Fail => Step(if a.marked then s1.(log := s1.log + [OfPackage(PackageFailed)]) else s1, Error(JobFailed))
  }

  // ---------------------------------------------------------------- waiting for a decision

  /** How waiting ends: the context is cancelled, or somebody picks a position; recorded tells whether the
      completion of the job can be written. */
  datatype Resolution = Abandoned | Position(pos: nat, recorded: bool)

  datatype Phase = Running | Finished(outcome: Outcome) | Panicked

  datatype Turn = Turn(answers: Answers, resolution: Resolution)

  datatype Progress = Progress(state: State, phase: Phase)

  /** The value of the choice enters the context of the chain, under a key with its signs. */
  function Decided(s: State, choice: Choice): State {
    if s.chain.Some? && choice.value.Some? && choice.value.value.0 != "" then
      var c := s.chain.value;
      s.(chain := Some(c.(context := c.context[KeyOf(choice.value.value.0) := choice.value.value.1])))
    else s
  }

  function KeyOf(name: string): string {
    "%" + name + "%"
  }

  /** The waiting job is completed and processing goes on where the choice says; a position out of range is
      an index error. */
  function Resolve(s: State, job: nat, choices: seq<Choice>, r: Resolution): Progress {
    match r
    case Abandoned => Progress(s, Finished(Error(Cancelled)))
    case Position(pos, recorded) =>
      if pos >= |choices| then Progress(s, Panicked)
      else
        var s1 := Decided(s, choices[pos]);
        if !recorded then Progress(s1, Finished(Error(StoreError)))
        else Progress(s1.(nextLink := choices[pos].nextLink, log := s1.log + [OfJob(job, Completed)]), Running)
  }

  /** One round of the loop that processes a package. */
  function Iterate(doc: Document, start: Start, s: State, t: Turn): Progress {
    var step := Next(doc, start, s, t.answers);
    match step.outcome
    case Continue => Progress(step.state, Running)
    case Wait(job, choices) => Resolve(step.state, job, choices, t.resolution)
    case EndOfWorkflow => Progress(step.state, Finished(step.outcome))
    case EndOfChain => Progress(step.state, Finished(step.outcome))
    case Error(_) => Progress(step.state, Finished(step.outcome))
  }

  /** The loop, as far as the turns go. */
  function Process(doc: Document, start: Start, s: State, turns: seq<Turn>): Progress
    decreases |turns|
  {
    if turns == [] then Progress(s, Running)
    else
      var p := Iterate(doc, start, s, turns[0]);
      if p.phase.Running? then Process(doc, start, p.state, turns[1..]) else p
  }

  function Initial(vars: map<string, Id>): State {
    State(NIL, None, vars, [], [])
  }

  // ---------------------------------------------------------------- the iterator object

  class JobIterator {
    const doc: Document
    const start: Start
    var nextLink: Id
    var chain: Option<Chain>
    var vars: map<string, Id>
    var jobs: seq<Id>
    var log: seq<Event>

    function View(): State
      reads this
    {
      State(nextLink, chain, vars, jobs, log)
    }

    constructor (doc: Document, start: Start, vars: map<string, Id>)
      ensures this.doc == doc && this.start == start && View() == Initial(vars)
    {
      this.doc, this.start, this.vars := doc, start, vars;
      nextLink, chain, jobs, log := NIL, None, [], [];
    }

    /** init: marks the package and finds the chain to start with. */
    method Init(a: Answers) returns (error: Option<Reason>)
      modifies this
      ensures chain == old(chain) && vars == old(vars) && jobs == old(jobs)
      ensures log == old(log) + if a.processing then [OfPackage(Processing)] else []
      ensures error == if !a.processing then Some(StoreError)
                       else if start.chain !in doc.chains then Some(NoChain) else None
      ensures nextLink == if error == None then start.chain else old(nextLink)
    {
      if !a.processing {
        return Some(StoreError);
      }
      log := log + [OfPackage(Processing)];
      if start.chain !in doc.chains {
        return Some(NoChain);
      }
      nextLink := start.chain;
      return None;
    }

    method NextJob(a: Answers) returns (outcome: Outcome)
      modifies this
      ensures Step(View(), outcome) == Next(doc, start, old(View()), a)
    {
      if a.cancelled {
        return Error(Cancelled);
      }
      if nextLink == NIL {
        var error := Init(a);
        if error.Some? {
          return Error(error.value);
        }
      }
      ghost var begun := View();
      if nextLink in doc.chains {
        chain := Some(Chain(nextLink, map[]));
        if a.loaded.None? {
          return Error(StoreError);
        }
        chain := Some(Chain(nextLink, a.loaded.value));
        if nextLink == start.chain && start.link != NIL {
          nextLink := start.link;
        } else {
          nextLink := doc.chains[nextLink];
        }
        return Continue;
      }
      if chain.None? {
        return Error(NoChain);
      }
      if nextLink !in doc.links {
        return Error(NoLink);
      }
      var link := doc.links[nextLink];
      if link.runner.UnknownManager? {
        return Error(NoManager);
      }
      outcome := RunJob(link, a);
    }

    method RunJob(link: Link, a: Answers) returns (outcome: Outcome)
      requires chain.Some? && nextLink in doc.links && link == doc.links[nextLink]
      modifies this
      ensures Step(View(), outcome)
              == AfterJob(link, old(View()), JobWork(doc, link, old(vars), old(chain).value.context, a), a)
    {
      var job := |jobs|;
      var verdict := Exec(link, a);
      match verdict {
        case Eof =>
          if !link.end {
            return EndOfChain;
          }
          if a.marked {
            log := log + [OfPackage(Done)];
          }
          return EndOfWorkflow;
        case Await(choices) =>
          return Wait(job, choices);
        case Fail =>
          if a.marked {
            log := log + [OfPackage(PackageFailed)];
          }
          return Error(JobFailed);
        case Go(next) =>
          nextLink := next;
          return Continue;
      }
    }

    /** job.exec. */
    method Exec(link: Link, a: Answers) returns (verdict: Verdict)
      requires chain.Some?
      modifies this
      ensures var w := JobWork(doc, link, old(vars), old(chain).value.context, a);
              View() == Worked(old(View()), w) && verdict == w.verdict
    {
      if !a.created {
        return Fail;
      }
      var job := |jobs|;
      var w := RunnerWork(doc, link, vars, chain.value.context, a);
      ghost var statuses := [Executing] + w.statuses;
      jobs := jobs + [nextLink];
      log := log + Events(job, [Executing] + w.statuses);
      vars := w.vars;
      chain := Some(chain.value.(context := w.context));
      verdict := w.verdict;
      if verdict.Await? {
        if a.recorded {
          EventsOneMore(job, statuses, AwaitingDecision);
          log := log + [OfJob(job, AwaitingDecision)];
        } else {
          verdict := Fail;
        }
      } else if verdict.Go? && !link.runner.ClientScript? {
        if a.recorded {
          EventsOneMore(job, statuses, Completed);
          log := log + [OfJob(job, Completed)];
        } else {
          verdict := Fail;
        }
      }
    }

    /** The controller's await: hands the choice to the job and moves the iterator. */
    method Await(job: nat, choices: seq<Choice>, r: Resolution) returns (phase: Phase)
      modifies this
      ensures Progress(View(), phase) == Resolve(old(View()), job, choices, r)
    {
      match r {
        case Abandoned =>
          return Finished(Error(Cancelled));
        case Position(pos, recorded) =>
          if pos >= |choices| {
            return Panicked;
          }
          var choice := choices[pos];
          if chain.Some? && choice.value.Some? && choice.value.value.0 != "" {
            var c := chain.value;
            chain := Some(c.(context := c.context[KeyOf(choice.value.value.0) := choice.value.value.1]));
          }
          if !recorded {
            return Finished(Error(StoreError));
          }
          log := log + [OfJob(job, Completed)];
          nextLink := choice.nextLink;
          return Running;
      }
    }

    /** The goroutine that processes the package. */
    method Run(turns: seq<Turn>) returns (phase: Phase)
      modifies this
      ensures Progress(View(), phase) == Process(doc, start, old(View()), turns)
    {
      phase := Running;
      var i := 0;
      while i < |turns| && phase.Running?
        invariant i <= |turns|
        invariant Process(doc, start, old(View()), turns)
                  == if phase.Running? then Process(doc, start, View(), turns[i..]) else Progress(View(), phase)
      {
        assert turns[i..][1..] == turns[i + 1..];
        var outcome := NextJob(turns[i].answers);
        match outcome {
          case Continue =>
          case Wait(job, choices) =>
            phase := Await(job, choices, turns[i].resolution);
          case EndOfWorkflow => phase := Finished(outcome);
          case EndOfChain => phase := Finished(outcome);
          case Error(_) => phase := Finished(outcome);
        }
        i := i + 1;
      }
    }
  }

  lemma {:induction false} EventsOneMore(job: nat, statuses: seq<Status>, last: Status)
    ensures Events(job, statuses + [last]) == Events(job, statuses) + [OfJob(job, last)]
  {
    if statuses == [] {
      assert [] + [last] == [last] && [last][1..] == [];
    } else {
      assert (statuses + [last])[1..] == statuses[1..] + [last];
      EventsOneMore(job, statuses[1..], last);
    }
  }
}
