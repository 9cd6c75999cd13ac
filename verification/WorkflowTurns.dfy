/** What one turn of the interpreter does, said of the document alone: for every kind of job, where processing goes
    on, what is stored and what is written (internal/controller/iterator.go, jobs_client.go, jobs_local.go,
    jobs_decision.go). */
module WorkflowTurns {
  import opened Text
  import opened Workflow

  /** A link of the document is up, inside a chain. */
  predicate AtLink(doc: Document, s: State, a: Answers) {
    && !a.cancelled && s.nextLink != NIL && s.nextLink !in doc.chains && s.chain.Some?
    && s.nextLink in doc.links && !doc.links[s.nextLink].runner.UnknownManager?
  }

  /** The state after a job of the link that is up, with the statuses written for it. */
  function AfterStatuses(s: State, statuses: seq<Status>): State {
    s.(jobs := s.jobs + [s.nextLink], log := s.log + seq(|statuses|, i requires 0 <= i < |statuses| =>
      OfJob(|s.jobs|, statuses[i])))
  }

  lemma {:induction false} EventsAt(job: nat, statuses: seq<Status>)
    ensures Events(job, statuses)
            == seq(|statuses|, i requires 0 <= i < |statuses| => OfJob(job, statuses[i]))
  {
    if statuses != [] {
      EventsAt(job, statuses[1..]);
    }
  }

  // ---------------------------------------------------------------- client jobs

  /** The exit code has the status: its own if it is listed, or else that of the fallback. */
  predicate CodeStatus(link: Link, code: nat, status: Status) {
    if code in link.exitCodes then link.exitCodes[code].status == Some(status) else link.fallbackStatus == Some(status)
  }

  /** The exit code leads to the link: a listed code to its own, any other to the fallback. */
  predicate CodeLeadsTo(link: Link, code: nat, next: Id) {
    if code in link.exitCodes then link.exitCodes[code].link == Some(next)
    else link.fallbackLink != NIL && next == link.fallbackLink
  }

  predicate CodeEnds(link: Link, code: nat) {
    if code in link.exitCodes then link.exitCodes[code].link.None? else link.fallbackLink == NIL
  }

  /** A client job that runs: its exit code decides the status written and where processing goes on. */
  lemma ClientJobTurn(doc: Document, start: Start, s: State, t: Turn, status: Status)
    requires AtLink(doc, s, t.answers) && doc.links[s.nextLink].runner.ClientScript?
    requires t.answers.created && t.answers.submitted && t.answers.updated
    requires CodeStatus(doc.links[s.nextLink], t.answers.exitCode, status)
    ensures var link, code := doc.links[s.nextLink], t.answers.exitCode;
            var p, s1 := Iterate(doc, start, s, t), AfterStatuses(s, [Executing, status]);
            && (forall next | CodeLeadsTo(link, code, next) :: p == Progress(s1.(nextLink := next), Running))
            && (CodeEnds(link, code) && !link.end ==> p == Progress(s1, Finished(EndOfChain)))
            && (CodeEnds(link, code) && link.end ==>
                  p == Progress(
                         if t.answers.marked then s1.(log := s1.log + [OfPackage(Done)]) else s1,
                         Finished(EndOfWorkflow)))
            && (CodeEnds(link, code) <==> !exists next :: CodeLeadsTo(link, code, next))
  {
    var link, code := doc.links[s.nextLink], t.answers.exitCode;
    EventsAt(|s.jobs|, [Executing, status]);
    assert StatusOf(link, code) == Some(status);
    assert [Executing] + [status] == [Executing, status];
    if code in link.exitCodes && link.exitCodes[code].link.Some? {
      assert CodeLeadsTo(link, code, link.exitCodes[code].link.value);
    } else if code !in link.exitCodes && link.fallbackLink != NIL {
      assert CodeLeadsTo(link, code, link.fallbackLink);
    }
  }

  lemma {:induction false} AnyChainIs(doc: Document, choices: seq<Id>)
    ensures AnyChain(doc, choices) <==> exists c :: c in choices && c in doc.chains
  {
    if choices != [] {
      AnyChainIs(doc, choices[1..]);
      assert choices == [choices[0]] + choices[1..];
    }
  }

  /** Tasks that cannot be submitted or saved, an exit code without a known status, a variable that cannot be read or
      stored, or nothing to store in it, a preconfigured chain or settings that cannot be loaded, or a preconfigured
      chain although the document knows none of the choices. */
  ghost predicate Fails(doc: Document, link: Link, a: Answers) {
    match link.runner
    case ClientScript => !a.submitted || !a.updated || !exists status :: CodeStatus(link, a.exitCode, status)
    case SetVariable(_, target) => !a.stored || target == NIL
    case GetVariable(_, _) => !a.stored
    case NextChain(choices) =>
      a.preconfigured.Failure? || (a.preconfigured.value.Some? && forall c | c in choices :: c !in doc.chains)
    case UpdateContext(_) => a.settings.Failure?
    case UnknownManager => false
  }

  /** A job that cannot be created leaves no trace; one that fails later is left as executing. Either way processing
      fails. */
  lemma FailedJobTurn(doc: Document, start: Start, s: State, t: Turn)
    requires AtLink(doc, s, t.answers)
    requires !t.answers.created || Fails(doc, doc.links[s.nextLink], t.answers)
    ensures var s1 := if t.answers.created then AfterStatuses(s, [Executing]) else s;
            Iterate(doc, start, s, t)
            == Progress(
                 if t.answers.marked then s1.(log := s1.log + [OfPackage(PackageFailed)]) else s1,
                 Finished(Error(JobFailed)))
  {
    var link, code := doc.links[s.nextLink], t.answers.exitCode;
    EventsAt(|s.jobs|, [Executing]);
    assert [Executing] + [] == [Executing];
    if link.runner.ClientScript? && StatusOf(link, code).Some? {
      assert CodeStatus(link, code, StatusOf(link, code).value);
    }
    if link.runner.NextChain? {
      AnyChainIs(doc, link.runner.choices);
    }
  }

  /** A job that runs in the controller fails if its status cannot be recorded, whatever it has done. */
  lemma UnrecordedTurn(doc: Document, start: Start, s: State, t: Turn)
    requires AtLink(doc, s, t.answers) && !doc.links[s.nextLink].runner.ClientScript?
    requires t.answers.created && !t.answers.recorded
    ensures var p, log := Iterate(doc, start, s, t), AfterStatuses(s, [Executing]).log;
            && p.phase == Finished(Error(JobFailed))
            && p.state.log == if t.answers.marked then log + [OfPackage(PackageFailed)] else log
  {
    EventsAt(|s.jobs|, [Executing]);
    assert [Executing] + [] == [Executing];
  }

  // ---------------------------------------------------------------- unit variables

  /** Where a job that runs in the controller goes on: the link of exit code 0, if it has one, or else the fallback. */
  predicate ZeroLeadsTo(link: Link, next: Id) {
    if 0 in link.exitCodes && link.exitCodes[0].link.Some? && link.exitCodes[0].link.value != NIL
    then next == link.exitCodes[0].link.value else next == link.fallbackLink
  }

  lemma SetVariableTurn(doc: Document, start: Start, s: State, t: Turn, next: Id)
    requires AtLink(doc, s, t.answers) && doc.links[s.nextLink].runner.SetVariable?
    requires t.answers.created && t.answers.stored && t.answers.recorded && doc.links[s.nextLink].runner.link != NIL
    requires ZeroLeadsTo(doc.links[s.nextLink], next)
    ensures var runner := doc.links[s.nextLink].runner;
            Iterate(doc, start, s, t)
            == Progress(
                 AfterStatuses(s, [Executing, Completed])
                 .(nextLink := next, vars := s.vars[runner.variable := runner.link]),
                 Running)
  {
    EventsAt(|s.jobs|, [Executing, Completed]);
    assert [Executing] + [] + [Completed] == [Executing, Completed];
  }

  lemma GetVariableTurn(doc: Document, start: Start, s: State, t: Turn)
    requires AtLink(doc, s, t.answers) && doc.links[s.nextLink].runner.GetVariable?
    requires t.answers.created && t.answers.stored && t.answers.recorded
    ensures var runner := doc.links[s.nextLink].runner;
            var found := runner.variable in s.vars && s.vars[runner.variable] != NIL;
            Iterate(doc, start, s, t)
            == Progress(
                 AfterStatuses(s, [Executing, Completed])
                 .(nextLink := if found then s.vars[runner.variable] else runner.link),
                 Running)
  {
    EventsAt(|s.jobs|, [Executing, Completed]);
    assert [Executing] + [] + [Completed] == [Executing, Completed];
  }

  /** The jobs begun from a number on set other variables. */
  predicate SetsOthers(doc: Document, jobs: seq<Id>, from: nat, variable: string) {
    forall j | from <= j < |jobs| && jobs[j] in doc.links && doc.links[jobs[j]].runner.SetVariable? ::
      doc.links[jobs[j]].runner.variable != variable
  }

  lemma JobStores(doc: Document, link: Link, vars: map<string, Id>, context: map<string, string>, a: Answers)
    ensures var w := JobWork(doc, link, vars, context, a);
            || w.vars == vars
            || (&& link.runner.SetVariable? && w.statuses != []
                && w.vars == vars[link.runner.variable := link.runner.link])
  {
  }

  predicate Stores(doc: Document, s: State, s': State) {
    && s.jobs <= s'.jobs
    && (|| s'.vars == s.vars
        || (&& |s'.jobs| > |s.jobs| && s'.jobs[|s.jobs|] in doc.links
            && doc.links[s'.jobs[|s.jobs|]].runner.SetVariable?
            && s'.vars == s.vars[doc.links[s'.jobs[|s.jobs|]].runner.variable
                                 := doc.links[s'.jobs[|s.jobs|]].runner.link]))
  }

  lemma StartedStores(doc: Document, start: Start, s: State, a: Answers)
    ensures Stores(doc, s, NextStarted(doc, start, s, a).state)
  {
    if s.chain.Some? && s.nextLink in doc.links {
      JobStores(doc, doc.links[s.nextLink], s.vars, s.chain.value.context, a);
    }
  }

  lemma TurnStores(doc: Document, start: Start, s: State, t: Turn)
    ensures Stores(doc, s, Iterate(doc, start, s, t).state)
  {
    StartedStores(doc, start, s, t.answers);
    StartedStores(doc, start, s.(log := s.log + [OfPackage(Processing)], nextLink := start.chain), t.answers);
    ResolvedStores(Next(doc, start, s, t.answers), t.resolution);
  }

  lemma ResolvedStores(step: Step, r: Resolution)
    ensures step.outcome.Wait? ==>
              var p := Resolve(step.state, step.outcome.job, step.outcome.choices, r);
              p.state.vars == step.state.vars && p.state.jobs == step.state.jobs
  {
  }

  lemma OnlySettersStore(doc: Document, start: Start, s: State, t: Turn, variable: string)
    requires SetsOthers(doc, Iterate(doc, start, s, t).state.jobs, |s.jobs|, variable)
    ensures var s' := Iterate(doc, start, s, t).state;
            && (variable in s'.vars <==> variable in s.vars)
            && (variable in s.vars ==> s'.vars[variable] == s.vars[variable])
            && s.jobs <= s'.jobs
  {
    TurnStores(doc, start, s, t);
  }

  lemma {:induction false} StoredStays(doc: Document, start: Start, s: State, turns: seq<Turn>, variable: string)
    requires SetsOthers(doc, Process(doc, start, s, turns).state.jobs, |s.jobs|, variable)
    ensures var s' := Process(doc, start, s, turns).state;
            && (variable in s'.vars <==> variable in s.vars)
            && (variable in s.vars ==> s'.vars[variable] == s.vars[variable])
            && s.jobs <= s'.jobs
    decreases |turns|
  {
    if turns != [] {
      var p := Iterate(doc, start, s, turns[0]);
      JobsGrow(doc, start, s, turns);
      OnlySettersStore(doc, start, s, turns[0], variable);
      if p.phase.Running? {
        StoredStays(doc, start, p.state, turns[1..], variable);
      }
    }
  }

  lemma {:induction false} JobsGrow(doc: Document, start: Start, s: State, turns: seq<Turn>)
    ensures s.jobs <= Process(doc, start, s, turns).state.jobs
    ensures turns != [] ==>
              Iterate(doc, start, s, turns[0]).state.jobs <= Process(doc, start, s, turns).state.jobs
    decreases |turns|
  {
    if turns != [] {
      var p := Iterate(doc, start, s, turns[0]);
      TurnStores(doc, start, s, turns[0]);
      if p.phase.Running? {
        JobsGrow(doc, start, p.state, turns[1..]);
      }
    }
  }

  /** What a job stored in a variable is where a later job that reads the variable goes on, whatever happens in
      between, as long as no job in between sets the same variable. */
  lemma StoredIsFollowed(doc: Document, start: Start, s: State, t: Turn, between: seq<Turn>, u: Turn, next: Id)
    requires AtLink(doc, s, t.answers) && doc.links[s.nextLink].runner.SetVariable?
    requires t.answers.created && t.answers.stored && t.answers.recorded && doc.links[s.nextLink].runner.link != NIL
    requires ZeroLeadsTo(doc.links[s.nextLink], next)
    requires var p := Process(doc, start, Iterate(doc, start, s, t).state, between);
             && p.phase.Running? && AtLink(doc, p.state, u.answers)
             && doc.links[p.state.nextLink].runner.GetVariable?
             && doc.links[p.state.nextLink].runner.variable == doc.links[s.nextLink].runner.variable
             && SetsOthers(doc, p.state.jobs, |s.jobs| + 1, doc.links[s.nextLink].runner.variable)
    requires u.answers.created && u.answers.stored && u.answers.recorded
    ensures var p := Process(doc, start, Iterate(doc, start, s, t).state, between);
            Iterate(doc, start, p.state, u).phase.Running?
            && Iterate(doc, start, p.state, u).state.nextLink == doc.links[s.nextLink].runner.link
  {
    SetVariableTurn(doc, start, s, t, next);
    var s1 := Iterate(doc, start, s, t).state;
    StoredStays(doc, start, s1, between, doc.links[s.nextLink].runner.variable);
    GetVariableTurn(doc, start, Process(doc, start, s1, between).state, u);
  }

  // ---------------------------------------------------------------- decisions

  /** How many of the first n choices are chains of the document. */
  function KnownAmong(doc: Document, choices: seq<Id>, n: nat): nat
    requires n <= |choices|
  {
    if n == 0 then 0 else KnownAmong(doc, choices, n - 1) + if choices[n - 1] in doc.chains then 1 else 0
  }

  lemma {:induction false} KnownShift(doc: Document, choices: seq<Id>, n: nat)
    requires 0 < n <= |choices|
    ensures KnownAmong(doc, choices, n)
            == (if choices[0] in doc.chains then 1 else 0) + KnownAmong(doc, choices[1..], n - 1)
  {
    if n > 1 {
      KnownShift(doc, choices, n - 1);
      assert choices[1..][n - 2] == choices[n - 1];
    }
  }

  /** The choices offered are the known chains, in their order. */
  lemma {:induction false} ChainOffered(doc: Document, choices: seq<Id>, k: nat)
    requires k < |choices| && choices[k] in doc.chains
    ensures var pos := KnownAmong(doc, choices, k);
            pos < |ChainChoices(doc, choices)| && ChainChoices(doc, choices)[pos] == Choice(None, choices[k])
  {
    if k > 0 {
      KnownShift(doc, choices, k);
      assert choices[1..][k - 1] == choices[k];
      ChainOffered(doc, choices[1..], k - 1);
    }
  }

  /** A preconfigured chain is taken at once, provided that the document knows some of the choices. */
  lemma PreconfiguredTurn(doc: Document, start: Start, s: State, t: Turn, chain: Id)
    requires AtLink(doc, s, t.answers) && doc.links[s.nextLink].runner.NextChain?
    requires t.answers.created && t.answers.recorded && t.answers.preconfigured == Success(Some(chain))
    ensures var s1 := AfterStatuses(s, [Executing, Completed]);
            var p := Iterate(doc, start, s, t);
            if exists c :: c in doc.links[s.nextLink].runner.choices && c in doc.chains
            then p == Progress(s1.(nextLink := chain), Running)
            else p.phase == Finished(Error(JobFailed)) && p.state.nextLink == s.nextLink
  {
    AnyChainIs(doc, doc.links[s.nextLink].runner.choices);
    EventsAt(|s.jobs|, [Executing, Completed]);
    assert [Executing] + [] + [Completed] == [Executing, Completed];
  }

  /** Without one, whoever resolves the decision picks from the chains the document knows. */
  lemma NextChainTurn(doc: Document, start: Start, s: State, t: Turn, k: nat)
    requires AtLink(doc, s, t.answers) && doc.links[s.nextLink].runner.NextChain?
    requires t.answers.created && t.answers.recorded && t.answers.preconfigured == Success(None)
    requires k < |doc.links[s.nextLink].runner.choices| && doc.links[s.nextLink].runner.choices[k] in doc.chains
    requires t.resolution == Position(KnownAmong(doc, doc.links[s.nextLink].runner.choices, k), true)
    ensures Iterate(doc, start, s, t)
            == Progress(
                 AfterStatuses(s, [Executing, AwaitingDecision, Completed])
                 .(nextLink := doc.links[s.nextLink].runner.choices[k]),
                 Running)
  {
    ChainOffered(doc, doc.links[s.nextLink].runner.choices, k);
    EventsAt(|s.jobs|, [Executing, AwaitingDecision]);
    assert [Executing] + [] + [AwaitingDecision] == [Executing, AwaitingDecision];
    assert AfterStatuses(s, [Executing, AwaitingDecision]).log + [OfJob(|s.jobs|, Completed)]
        == AfterStatuses(s, [Executing, AwaitingDecision, Completed]).log;
  }

  lemma {:induction false} ContextOffered(replacements: seq<Option<(string, string)>>, next: Id, k: nat)
    requires k < |replacements|
    ensures k < |ContextChoices(replacements, next)|
    ensures ContextChoices(replacements, next)[k] == Choice(replacements[k], next)
  {
    if k > 0 {
      ContextOffered(replacements[1..], next, k - 1);
    }
  }

  /** Settings found for the decision enter the context of the chain as they are. */
  lemma SettingsTurn(doc: Document, start: Start, s: State, t: Turn, next: Id)
    requires AtLink(doc, s, t.answers) && doc.links[s.nextLink].runner.UpdateContext?
    requires t.answers.created && t.answers.recorded && t.answers.settings.Success?
    requires t.answers.settings.value != map[] && ZeroLeadsTo(doc.links[s.nextLink], next)
    ensures var chain := s.chain.value;
            Iterate(doc, start, s, t)
            == Progress(
                 AfterStatuses(s, [Executing, Completed])
                 .(nextLink := next, chain := Some(Chain(chain.id, chain.context + t.answers.settings.value))),
                 Running)
  {
    EventsAt(|s.jobs|, [Executing, Completed]);
    assert [Executing] + [] + [Completed] == [Executing, Completed];
  }

  /** Without settings, whoever resolves the decision picks a replacement; it enters the context under its name
      between percent signs, or not at all if it has no name. */
  lemma UpdateContextTurn(doc: Document, start: Start, s: State, t: Turn, k: nat, next: Id)
    requires AtLink(doc, s, t.answers) && doc.links[s.nextLink].runner.UpdateContext?
    requires t.answers.created && t.answers.recorded && t.answers.settings == Success(map[])
    requires k < |doc.links[s.nextLink].runner.replacements| && t.resolution == Position(k, true)
    requires ZeroLeadsTo(doc.links[s.nextLink], next)
    ensures var r, chain := doc.links[s.nextLink].runner.replacements[k], s.chain.value;
            var context := if r.Some? && r.value.0 != "" then chain.context["%" + r.value.0 + "%" := r.value.1]
                           else chain.context;
            Iterate(doc, start, s, t)
            == Progress(
                 AfterStatuses(s, [Executing, AwaitingDecision, Completed])
                 .(nextLink := next, chain := Some(Chain(chain.id, context))),
                 Running)
  {
    ContextOffered(doc.links[s.nextLink].runner.replacements, next, k);
    EventsAt(|s.jobs|, [Executing, AwaitingDecision]);
    assert [Executing] + [] + [AwaitingDecision] == [Executing, AwaitingDecision];
    assert AfterStatuses(s, [Executing, AwaitingDecision]).log + [OfJob(|s.jobs|, Completed)]
        == AfterStatuses(s, [Executing, AwaitingDecision, Completed]).log;
  }

  /** A decision is abandoned with the controller, a position that was not offered is a panic, and a resolution that
      cannot be recorded leaves the job awaiting. */
  lemma UnresolvedTurn(doc: Document, start: Start, s: State, t: Turn)
    requires AtLink(doc, s, t.answers) && doc.links[s.nextLink].runner.NextChain?
    requires t.answers.created && t.answers.recorded && t.answers.preconfigured == Success(None)
    ensures var p, choices := Iterate(doc, start, s, t), doc.links[s.nextLink].runner.choices;
            && (t.resolution.Abandoned? ==> p.phase == Finished(Error(Cancelled)))
            && (t.resolution.Position? ==>
                  (p.phase.Panicked? <==> t.resolution.pos >= KnownAmong(doc, choices, |choices|)))
            && (t.resolution.Position? && !t.resolution.recorded && !p.phase.Panicked? ==>
                  && p.phase == Finished(Error(StoreError))
                  && p.state.log == AfterStatuses(s, [Executing, AwaitingDecision]).log)
  {
    EventsAt(|s.jobs|, [Executing, AwaitingDecision]);
    assert [Executing] + [AwaitingDecision] == [Executing, AwaitingDecision];
    OfferedCount(doc, doc.links[s.nextLink].runner.choices);
  }

  lemma {:induction false} OfferedCount(doc: Document, choices: seq<Id>)
    ensures |ChainChoices(doc, choices)| == KnownAmong(doc, choices, |choices|)
  {
    if choices != [] {
      KnownShift(doc, choices, |choices|);
      OfferedCount(doc, choices[1..]);
    }
  }

  // ---------------------------------------------------------------- chains and the start

  /** A chain is entered at its first link, or where part of the first chain is bypassed, with its own context. */
  lemma ChainTurn(doc: Document, start: Start, s: State, t: Turn)
    requires !t.answers.cancelled && s.nextLink != NIL && s.nextLink in doc.chains
    ensures var id, p := s.nextLink, Iterate(doc, start, s, t);
            match t.answers.loaded
            case None => p.phase == Finished(Error(StoreError)) && p.state.nextLink == id
            case Some(context) =>
              p == Progress(
                     s.(chain := Some(Chain(id, context)),
                        nextLink := if id == start.chain && start.link != NIL then start.link else doc.chains[id]),
                     Running)
  {
  }

  /** A run starts by marking the package, with the chain it is started with. */
  lemma FirstTurn(doc: Document, start: Start, vars: map<string, Id>, t: Turn)
    ensures var s, p := Initial(vars), Iterate(doc, start, Initial(vars), t);
            var marked := s.(log := [OfPackage(Processing)]);
            if t.answers.cancelled then p == Progress(s, Finished(Error(Cancelled)))
            else if !t.answers.processing then p == Progress(s, Finished(Error(StoreError)))
            else if start.chain !in doc.chains then p == Progress(marked, Finished(Error(NoChain)))
            else t.answers.loaded.Some? ==>
                   p == Progress(
                          marked.(chain := Some(Chain(start.chain, t.answers.loaded.value)),
                                  nextLink := if start.link != NIL then start.link else doc.chains[start.chain]),
                          Running)
  {
    assert [] + [OfPackage(Processing)] == [OfPackage(Processing)];
  }

  /** What the document does not know ends processing with an error, and nothing is written. */
  lemma UnknownTurn(doc: Document, start: Start, s: State, t: Turn)
    requires !t.answers.cancelled && s.nextLink != NIL && s.nextLink !in doc.chains
    ensures var p := Iterate(doc, start, s, t);
            && (s.chain.None? ==> p == Progress(s, Finished(Error(NoChain))))
            && (s.chain.Some? && s.nextLink !in doc.links ==> p == Progress(s, Finished(Error(NoLink))))
            && (s.chain.Some? && s.nextLink in doc.links && doc.links[s.nextLink].runner.UnknownManager? ==>
                  p == Progress(s, Finished(Error(NoManager))))
  {
  }
}
