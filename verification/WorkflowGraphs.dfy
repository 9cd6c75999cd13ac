/** Whole runs and the graph of the document: acyclic documents are processed to an end, and a package is started
    twice exactly if a run can reach a chain or link that does not lead on (internal/controller/iterator.go). */
module WorkflowGraphs {
  import opened Text
  import opened Workflow
  import opened WorkflowRuns

  // ---------------------------------------------------------------- the graph

  /** A link identifier that may be found in a variable of the package. */
  ghost predicate Stored(doc: Document, vars: map<string, Id>, v: string, id: Id) {
    && id != NIL
    && ((v in vars && vars[v] == id) || exists l :: l in doc.links && doc.links[l].runner == SetVariable(v, id))
  }

  /** The ways on from a link: exit codes, fallback, choices, and what may be found in a variable. */
  ghost predicate LeadsTo(doc: Document, vars: map<string, Id>, link: Link, id: Id) {
    match link.runner
    case ClientScript =>
      || (exists code :: code in link.exitCodes && link.exitCodes[code].link == Some(id))
      || (link.fallbackLink != NIL && link.fallbackLink == id)
    case SetVariable(_, target) => target != NIL && ExitCodeLink(link, 0) == id
    case GetVariable(v, fallback) => fallback == id || Stored(doc, vars, v, id)
    case NextChain(choices) => id in choices
    case UpdateContext(_) => ExitCodeLink(link, 0) == id
    case UnknownManager => false
  }

  ghost predicate Edge(doc: Document, start: Start, vars: map<string, Id>, a: Id, b: Id) {
    || (a in doc.chains && Entered(doc, start, a) == b)
    || (a in doc.links && LeadsTo(doc, vars, doc.links[a], b))
  }

  ghost predicate Walk(doc: Document, start: Start, vars: map<string, Id>, path: seq<Id>) {
    path != [] && forall i | 0 <= i < |path| - 1 :: Edge(doc, start, vars, path[i], path[i + 1])
  }

  /** No walk comes back to where it began. */
  ghost predicate Acyclic(doc: Document, start: Start, vars: map<string, Id>) {
    forall path | Walk(doc, start, vars, path) && |path| > 1 :: path[0] != path[|path| - 1]
  }

  // ---------------------------------------------------------------- the longest walk from an identifier

  ghost predicate HasWalk(doc: Document, start: Start, vars: map<string, Id>, id: Id, n: nat) {
    exists path :: Walk(doc, start, vars, path) && path[0] == id && |path| == n + 1
  }

  lemma WalkOn(doc: Document, start: Start, vars: map<string, Id>, a: Id, b: Id, n: nat)
    requires Edge(doc, start, vars, a, b) && HasWalk(doc, start, vars, b, n)
    ensures HasWalk(doc, start, vars, a, n + 1)
  {
    var path :| Walk(doc, start, vars, path) && path[0] == b && |path| == n + 1;
    var longer := [a] + path;
    forall i | 0 <= i < |longer| - 1 ensures Edge(doc, start, vars, longer[i], longer[i + 1]) {
      assert longer[i + 1] == path[i] && (i > 0 ==> longer[i] == path[i - 1]);
    }
    assert Walk(doc, start, vars, longer);
  }

  lemma NoSteps(doc: Document, start: Start, vars: map<string, Id>, id: Id)
    ensures HasWalk(doc, start, vars, id, 0)
  {
    assert Walk(doc, start, vars, [id]);
  }

  function Nodes(doc: Document): set<Id> {
    doc.chains.Keys + doc.links.Keys
  }

  /** Pigeonhole: without cycles no walk takes more steps than there are chains and links. */
  lemma ShortWalks(doc: Document, start: Start, vars: map<string, Id>, path: seq<Id>)
    requires Acyclic(doc, start, vars) && Walk(doc, start, vars, path)
    ensures |path| <= |Nodes(doc)| + 1
  {
    var front := path[..|path| - 1];
    forall i, j | 0 <= i < j < |front| ensures front[i] != front[j] {
      var part := path[i..j + 1];
      assert Walk(doc, start, vars, part) by {
        forall k | 0 <= k < |part| - 1 ensures Edge(doc, start, vars, part[k], part[k + 1]) {
          assert part[k] == path[i + k] && part[k + 1] == path[i + k + 1];
        }
      }
      assert part[0] == path[i] && part[|part| - 1] == path[j];
    }
    forall x | x in Elements(front) ensures x in Nodes(doc) {
      var i :| 0 <= i < |front| && front[i] == x;
      assert Edge(doc, start, vars, path[i], path[i + 1]);
    }
    DistinctSize(front);
    SubsetSize(Elements(front), Nodes(doc));
  }

  /** The largest number up to n that satisfies the predicate, or 0. */
  ghost function Largest(p: nat -> bool, n: nat): (k: nat)
    ensures k <= n && (k > 0 ==> p(k)) && forall i | k < i <= n :: !p(i)
  {
    if n == 0 || p(n) then n else Largest(p, n - 1)
  }

  ghost function Depth(doc: Document, start: Start, vars: map<string, Id>, id: Id): (n: nat)
    ensures n <= |Nodes(doc)| && (n > 0 ==> HasWalk(doc, start, vars, id, n))
    ensures forall i | n < i <= |Nodes(doc)| :: !HasWalk(doc, start, vars, id, i)
  {
    var p := (n: nat) => HasWalk(doc, start, vars, id, n);
    assert forall i: nat :: p(i) == HasWalk(doc, start, vars, id, i);
    Largest(p, |Nodes(doc)|)
  }

  lemma DepthIs(doc: Document, start: Start, vars: map<string, Id>, id: Id, n: nat)
    requires Acyclic(doc, start, vars)
    ensures HasWalk(doc, start, vars, id, Depth(doc, start, vars, id))
    ensures HasWalk(doc, start, vars, id, n) ==> n <= Depth(doc, start, vars, id)
  {
    NoSteps(doc, start, vars, id);
    if HasWalk(doc, start, vars, id, n) {
      var path :| Walk(doc, start, vars, path) && path[0] == id && |path| == n + 1;
      ShortWalks(doc, start, vars, path);
    }
  }

  lemma DepthFalls(doc: Document, start: Start, vars: map<string, Id>, a: Id, b: Id)
    requires Acyclic(doc, start, vars) && Edge(doc, start, vars, a, b)
    ensures Depth(doc, start, vars, b) < Depth(doc, start, vars, a)
  {
    var n := Depth(doc, start, vars, b);
    DepthIs(doc, start, vars, b, n);
    WalkOn(doc, start, vars, a, b, n);
    DepthIs(doc, start, vars, a, n + 1);
  }

  // ---------------------------------------------------------------- rankings

  ghost predicate StoredAt(doc: Document, start: Start, vars: map<string, Id>, v: string, n: nat) {
    exists id :: Stored(doc, vars, v, id) && Depth(doc, start, vars, id) == n
  }

  /** The depth of the deepest link that may be found in the variable. */
  ghost function Bound(doc: Document, start: Start, vars: map<string, Id>, v: string): (n: nat)
    ensures n > 0 ==> StoredAt(doc, start, vars, v, n)
    ensures forall i | n < i <= |Nodes(doc)| :: !StoredAt(doc, start, vars, v, i)
  {
    var p := (n: nat) => StoredAt(doc, start, vars, v, n);
    assert forall i: nat :: p(i) == StoredAt(doc, start, vars, v, i);
    Largest(p, |Nodes(doc)|)
  }

  ghost function ByDepth(doc: Document, start: Start, vars: map<string, Id>): Ranking {
    Ranking((id: Id) => Depth(doc, start, vars, id), (v: string) => Bound(doc, start, vars, v))
  }

  lemma BoundHolds(doc: Document, start: Start, vars: map<string, Id>, v: string, id: Id)
    requires Stored(doc, vars, v, id)
    ensures Depth(doc, start, vars, id) <= Bound(doc, start, vars, v)
  {
    assert StoredAt(doc, start, vars, v, Depth(doc, start, vars, id));
  }

  lemma LeadsDown(doc: Document, start: Start, vars: map<string, Id>, l: Id, b: Id)
    requires Acyclic(doc, start, vars) && l in doc.links && LeadsTo(doc, vars, doc.links[l], b)
    ensures Depth(doc, start, vars, b) < Depth(doc, start, vars, l)
  {
    DepthFalls(doc, start, vars, l, b);
  }

  lemma LinkRanked(doc: Document, start: Start, vars: map<string, Id>, l: Id)
    requires Acyclic(doc, start, vars) && l in doc.links
    ensures RankedLink(doc, ByDepth(doc, start, vars), l)
  {
    var link := doc.links[l];
    match link.runner
    case ClientScript =>
      forall code | code in link.exitCodes && link.exitCodes[code].link.Some?
        ensures Depth(doc, start, vars, link.exitCodes[code].link.value) < Depth(doc, start, vars, l)
      {
        LeadsDown(doc, start, vars, l, link.exitCodes[code].link.value);
      }
      if link.fallbackLink != NIL {
        LeadsDown(doc, start, vars, l, link.fallbackLink);
      }
    case SetVariable(v, target) =>
      if target != NIL {
        LeadsDown(doc, start, vars, l, ExitCodeLink(link, 0));
        BoundHolds(doc, start, vars, v, target);
      }
    case GetVariable(v, fallback) => GetRanked(doc, start, vars, l, v);
    case NextChain(choices) =>
      forall c | c in choices ensures Depth(doc, start, vars, c) < Depth(doc, start, vars, l) {
        LeadsDown(doc, start, vars, l, c);
      }
    case UpdateContext(_) => LeadsDown(doc, start, vars, l, ExitCodeLink(link, 0));
    case UnknownManager =>
  }

  lemma GetRanked(doc: Document, start: Start, vars: map<string, Id>, l: Id, v: string)
    requires Acyclic(doc, start, vars) && l in doc.links
    requires doc.links[l].runner.GetVariable? && doc.links[l].runner.variable == v
    ensures Depth(doc, start, vars, doc.links[l].runner.link) < Depth(doc, start, vars, l)
    ensures Bound(doc, start, vars, v) < Depth(doc, start, vars, l)
  {
    LeadsDown(doc, start, vars, l, doc.links[l].runner.link);
    var n := Bound(doc, start, vars, v);
    if n > 0 {
      var id :| Stored(doc, vars, v, id) && Depth(doc, start, vars, id) == n;
      LeadsDown(doc, start, vars, l, id);
    }
  }

  /** The chains and links of a document can be ranked, with its variables, exactly if it has no cycle. */
  lemma RankedExactly(doc: Document, start: Start, vars: map<string, Id>)
    ensures Acyclic(doc, start, vars) <==> exists r :: Ranked(doc, start, r) && VarsRanked(r, vars)
  {
    if Acyclic(doc, start, vars) {
      AcyclicIsRanked(doc, start, vars);
    }
    if r :| Ranked(doc, start, r) && VarsRanked(r, vars) {
      forall path | Walk(doc, start, vars, path) && |path| > 1 ensures path[0] != path[|path| - 1] {
        RankFalls(doc, start, vars, r, path);
      }
    }
  }

  lemma AcyclicIsRanked(doc: Document, start: Start, vars: map<string, Id>)
    requires Acyclic(doc, start, vars)
    ensures Ranked(doc, start, ByDepth(doc, start, vars)) && VarsRanked(ByDepth(doc, start, vars), vars)
  {
    var r := ByDepth(doc, start, vars);
    forall c | c in doc.chains ensures r.rank(Entered(doc, start, c)) < r.rank(c) {
      DepthFalls(doc, start, vars, c, Entered(doc, start, c));
    }
    forall l | l in doc.links ensures RankedLink(doc, r, l) {
      LinkRanked(doc, start, vars, l);
    }
    forall v | v in vars && vars[v] != NIL ensures r.rank(vars[v]) <= r.bound(v) {
      BoundHolds(doc, start, vars, v, vars[v]);
    }
  }

  lemma EdgeFalls(doc: Document, start: Start, vars: map<string, Id>, r: Ranking, a: Id, b: Id)
    requires Ranked(doc, start, r) && VarsRanked(r, vars) && Edge(doc, start, vars, a, b)
    ensures r.rank(b) < r.rank(a)
  {
    if !(a in doc.chains && Entered(doc, start, a) == b) {
      var link := doc.links[a];
      assert RankedLink(doc, r, a);
      if link.runner.GetVariable? && b != link.runner.link {
        StoredBelow(doc, start, vars, r, link.runner.variable, b);
      }
    }
  }

  lemma StoredBelow(doc: Document, start: Start, vars: map<string, Id>, r: Ranking, v: string, id: Id)
    requires Ranked(doc, start, r) && VarsRanked(r, vars) && Stored(doc, vars, v, id)
    ensures r.rank(id) <= r.bound(v)
  {
    if !(v in vars && vars[v] == id) {
      var l :| l in doc.links && doc.links[l].runner == SetVariable(v, id);
      assert RankedLink(doc, r, l);
    }
  }

  lemma {:induction false} RankFalls(
    doc: Document, start: Start, vars: map<string, Id>, r: Ranking, path: seq<Id>)
    requires Ranked(doc, start, r) && VarsRanked(r, vars) && Walk(doc, start, vars, path) && |path| > 1
    ensures r.rank(path[|path| - 1]) < r.rank(path[0])
    decreases |path|
  {
    EdgeFalls(doc, start, vars, r, path[0], path[1]);
    if |path| > 2 {
      var rest := path[1..];
      forall i | 0 <= i < |rest| - 1 ensures Edge(doc, start, vars, rest[i], rest[i + 1]) {
        assert rest[i] == path[i + 1] && rest[i + 1] == path[i + 2];
      }
      RankFalls(doc, start, vars, r, rest);
    }
  }

  /** A closed document without cycles is processed to an end: no run takes more iterations than the document has
      chains and links. */
  lemma AcyclicRunsEnd(doc: Document, start: Start, vars: map<string, Id>, turns: seq<Turn>)
    requires Closed(doc, start) && Acyclic(doc, start, vars) && VarsKnown(doc, vars)
    requires forall t | t in turns ::
               Configured(doc, t.answers) && forall l | l in doc.links :: Offered(doc, t.answers, l)
    requires Process(doc, start, Initial(vars), turns).phase.Running?
    ensures |turns| <= |Nodes(doc)|
  {
    AcyclicIsRanked(doc, start, vars);
    RunsEnd(doc, start, ByDepth(doc, start, vars), vars, Initial(vars), turns);
  }

  // ---------------------------------------------------------------- starting again

  /** How often the package has been marked as processing. */
  function Starts(log: seq<Event>): nat {
    if log == [] then 0 else (if log[0] == OfPackage(Processing) then 1 else 0) + Starts(log[1..])
  }

  lemma {:induction false} StartsConcat(a: seq<Event>, b: seq<Event>)
    ensures Starts(a + b) == Starts(a) + Starts(b)
  {
    if a == [] {
      assert a + b == b;
    } else {
      assert (a + b)[1..] == a[1..] + b;
      StartsConcat(a[1..], b);
    }
  }

  lemma {:induction false} NoStarts(job: nat, statuses: seq<Status>)
    ensures Starts(Events(job, statuses)) == 0
  {
    if statuses != [] {
      NoStarts(job, statuses[1..]);
      assert Events(job, statuses)[1..] == Events(job, statuses[1..]);
    }
  }

  lemma OneEvent(log: seq<Event>, e: Event)
    ensures Starts(log + [e]) == Starts(log) + if e == OfPackage(Processing) then 1 else 0
  {
    StartsConcat(log, [e]);
    assert [e][1..] == [];
  }

  /** The iterator is about to take a chain or a link that does not lead on. */
  predicate Stuck(doc: Document, start: Start, s: State) {
    if s.nextLink == NIL then start.chain in doc.chains && Entered(doc, start, start.chain) == NIL
    else if s.nextLink in doc.chains then Entered(doc, start, s.nextLink) == NIL
    else s.chain.Some? && s.nextLink in doc.links && !LeadsOnWith(doc.links[s.nextLink], s.vars)
  }

  predicate AllPreset(turns: seq<Turn>) {
    forall t | t in turns :: Preset(t)
  }

  lemma RunnerGoesOnWith(doc: Document, link: Link, vars: map<string, Id>, context: map<string, string>, a: Answers)
    requires NIL !in doc.chains && LeadsOnWith(link, vars) && a.preconfigured != Success(Some(NIL))
    ensures var w := JobWork(doc, link, vars, context, a);
            (w.verdict.Go? ==> w.verdict.next != NIL) && (w.verdict.Await? ==> NoneNil(w.verdict.choices))
  {
    if !link.runner.GetVariable? {
      RunnerGoesOn(doc, link, vars, context, a);
    }
  }

  /** Jobs and decisions never mark the package as processing. */
  lemma StartsStay(doc: Document, start: Start, s: State, a: Answers)
    ensures Starts(NextStarted(doc, start, s, a).state.log) == Starts(s.log)
  {
    if s.nextLink !in doc.chains && s.chain.Some? && s.nextLink in doc.links {
      var w := JobWork(doc, doc.links[s.nextLink], s.vars, s.chain.value.context, a);
      StartsConcat(s.log, Events(|s.jobs|, w.statuses));
      NoStarts(|s.jobs|, w.statuses);
      OneEvent(Worked(s, w).log, OfPackage(Done));
      OneEvent(Worked(s, w).log, OfPackage(PackageFailed));
    }
  }

  lemma StartsAfterTurn(doc: Document, start: Start, s: State, t: Turn)
    ensures Starts(Iterate(doc, start, s, t).state.log)
            == Starts(s.log) + if !t.answers.cancelled && s.nextLink == NIL && t.answers.processing then 1 else 0
  {
    var step := Next(doc, start, s, t.answers);
    var s1 := s.(log := s.log + [OfPackage(Processing)]);
    OneEvent(s.log, OfPackage(Processing));
    StartsStay(doc, start, s1.(nextLink := start.chain), t.answers);
    StartsStay(doc, start, s, t.answers);
    if step.outcome.Wait? {
      OneEvent(step.state.log, OfJob(step.outcome.job, Completed));
    }
  }

  /** From a state that is not stuck no turn leads to the nil link. */
  lemma NotStuckGoesOn(doc: Document, start: Start, s: State, t: Turn)
    requires NIL !in doc.chains && Preset(t) && !Stuck(doc, start, s)
    ensures GoesOn(Iterate(doc, start, s, t))
  {
    if s.nextLink != NIL && s.nextLink !in doc.chains && s.chain.Some? && s.nextLink in doc.links {
      RunnerGoesOnWith(doc, doc.links[s.nextLink], s.vars, s.chain.value.context, t.answers);
    }
  }

  lemma {:induction false} StuckOnTheWay(doc: Document, start: Start, s: State, turns: seq<Turn>) returns (k: nat)
    requires NIL !in doc.chains && AllPreset(turns)
    requires Starts(s.log) <= 1 && (s.nextLink == NIL ==> Starts(s.log) == 0)
    requires Starts(Process(doc, start, s, turns).state.log) >= 2
    ensures k <= |turns|
    ensures var p := Process(doc, start, s, turns[..k]);
            p.phase.Running? && Stuck(doc, start, p.state)
    decreases |turns|
  {
    if Stuck(doc, start, s) {
      k := 0;
    } else {
      NotStuckGoesOn(doc, start, s, turns[0]);
      StartsAfterTurn(doc, start, s, turns[0]);
      var p := Iterate(doc, start, s, turns[0]);
      var j := StuckOnTheWay(doc, start, p.state, turns[1..]);
      k := j + 1;
      assert turns[..k][1..] == turns[1..][..j];
    }
  }

  lemma {:induction false} ProcessConcat(doc: Document, start: Start, s: State, a: seq<Turn>, b: seq<Turn>)
    requires Process(doc, start, s, a).phase.Running?
    ensures Process(doc, start, s, a + b) == Process(doc, start, Process(doc, start, s, a).state, b)
    decreases |a|
  {
    if a == [] {
      assert a + b == b;
    } else {
      assert (a + b)[1..] == a[1..] + b;
      ProcessConcat(doc, start, Iterate(doc, start, s, a[0]).state, a[1..], b);
    }
  }

  /** A turn that takes the link or chain that does not lead on. */
  lemma StuckTurn(doc: Document, start: Start, s: State) returns (t: Turn)
    requires NIL !in doc.chains && Stuck(doc, start, s)
    ensures Preset(t) && t.answers.processing && !t.answers.cancelled
    ensures var p := Iterate(doc, start, s, t);
            p.phase.Running? && p.state.nextLink == NIL
  {
    t := Answering(0, map["key" := "value"]);
    if s.nextLink != NIL && s.nextLink !in doc.chains {
      t := StuckLinkTurn(doc, doc.links[s.nextLink], s.vars, s.chain.value.context);
    }
  }

  lemma {:induction false} BegunWasStarted(doc: Document, start: Start, s: State, turns: seq<Turn>)
    requires s.nextLink != NIL ==> Starts(s.log) >= 1
    ensures var p := Process(doc, start, s, turns);
            p.phase.Running? && p.state.nextLink != NIL ==> Starts(p.state.log) >= 1
    decreases |turns|
  {
    if turns != [] {
      StartsAfterTurn(doc, start, s, turns[0]);
      var p := Iterate(doc, start, s, turns[0]);
      if p.phase.Running? {
        BegunWasStarted(doc, start, p.state, turns[1..]);
      }
    }
  }

  /** After a state that is stuck the package can be marked again. */
  lemma StuckStartsAgain(doc: Document, start: Start, vars: map<string, Id>, turns: seq<Turn>) returns (more: seq<Turn>)
    requires NIL !in doc.chains && AllPreset(turns)
    requires var p := Process(doc, start, Initial(vars), turns);
             p.phase.Running? && Stuck(doc, start, p.state)
    ensures AllPreset(more) && Starts(Process(doc, start, Initial(vars), more).state.log) >= 2
  {
    var s := Process(doc, start, Initial(vars), turns).state;
    var t := StuckTurn(doc, start, s);
    var again := Answering(0, map[]);
    BegunWasStarted(doc, start, Initial(vars), turns);
    StartsAfterTurn(doc, start, s, t);
    var s1 := Iterate(doc, start, s, t).state;
    StartsAfterTurn(doc, start, s1, again);
    more := turns + [t, again];
    ProcessConcat(doc, start, Initial(vars), turns, [t, again]);
    assert [t, again][1..] == [again] && [again][1..] == [];
    assert Process(doc, start, s1, [again]).state == Iterate(doc, start, s1, again).state;
  }

  ghost predicate CanStartTwice(doc: Document, start: Start, vars: map<string, Id>) {
    exists turns :: AllPreset(turns) && Starts(Process(doc, start, Initial(vars), turns).state.log) >= 2
  }

  ghost predicate CanGetStuck(doc: Document, start: Start, vars: map<string, Id>) {
    exists turns ::
      && AllPreset(turns) && Process(doc, start, Initial(vars), turns).phase.Running?
      && Stuck(doc, start, Process(doc, start, Initial(vars), turns).state)
  }

  /** Some run marks the package as processing twice exactly if some run reaches a chain or a link that does not
      lead on. */
  lemma StartsTwiceExactly(doc: Document, start: Start, vars: map<string, Id>)
    requires NIL !in doc.chains
    ensures CanStartTwice(doc, start, vars) <==> CanGetStuck(doc, start, vars)
  {
    if turns :| AllPreset(turns) && Starts(Process(doc, start, Initial(vars), turns).state.log) >= 2 {
      var k := StuckOnTheWay(doc, start, Initial(vars), turns);
      assert AllPreset(turns[..k]);
    }
    if turns :| && AllPreset(turns) && Process(doc, start, Initial(vars), turns).phase.Running?
                && Stuck(doc, start, Process(doc, start, Initial(vars), turns).state) {
      var more := StuckStartsAgain(doc, start, vars, turns);
    }
  }
}
