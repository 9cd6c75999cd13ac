/** Importing PREMIS events: the links between files, agents and events are closed from both sides, checked,
    and only then saved (worker/worker/clientScripts/load_premis_events_from_xml.py). */
module PremisImport {
  import opened Text

  datatype Identifier = Identifier(kind: string, value: string)

  datatype FileElement = FileElement(originalName: string, events: set<Identifier>)

  datatype AgentElement = AgentElement(name: string, kind: string, events: set<Identifier>)

  datatype EventElement = EventElement(eventId: string, files: set<Identifier>, agents: set<Identifier>)

  type Files = map<Identifier, FileElement>
  type Agents = map<Identifier, AgentElement>
  type Events = map<Identifier, EventElement>

  const TRANSFER_ORIGINAL_LOCATION_PREFIX := "%transferDirectory%"

  // ---------------------------------------------------------------- closing the links

  type References = map<Identifier, set<Identifier>>

  function FileEvents(files: Files): References { map f | f in files :: files[f].events }

  function AgentEvents(agents: Agents): References { map a | a in agents :: agents[a].events }

  function EventFiles(events: Events): References { map e | e in events :: events[e].files }

  function EventAgents(events: Events): References { map e | e in events :: events[e].agents }

  /** The elements that name the event from their side. */
  function Naming(sources: References, e: Identifier): set<Identifier> {
    set x | x in sources && e in sources[x]
  }

  function Related(sources: References, targets: References): References {
    map e | e in targets :: targets[e] + Naming(sources, e)
  }

  /** The same, as far as only some elements have been looked at. */
  function Partly(sources: References, todo: set<Identifier>, own: set<Identifier>, e: Identifier): set<Identifier> {
    own + Naming(sources - todo, e)
  }

  predicate PartlyRelated(sources: References, todo: set<Identifier>, targets0: References, targets: References) {
    targets.Keys == targets0.Keys && forall e | e in targets :: targets[e] == Partly(sources, todo, targets0[e], e)
  }

  lemma RelateStep(
    sources: References, todo: set<Identifier>, targets0: References, targets: References, x: Identifier,
    targets': References)
    requires x in todo && todo <= sources.Keys && PartlyRelated(sources, todo, targets0, targets)
    requires targets'.Keys == targets.Keys
    requires forall e | e in targets' :: targets'[e] == if e in sources[x] then targets[e] + {x} else targets[e]
    ensures PartlyRelated(sources, todo - {x}, targets0, targets')
  {
    forall e | e in targets' ensures targets'[e] == Partly(sources, todo - {x}, targets0[e], e) {
    }
  }

  lemma RelateEnd(sources: References, targets0: References, targets: References)
    requires PartlyRelated(sources, {}, targets0, targets)
    ensures targets == Related(sources, targets0)
  {
    assert sources - {} == sources;
  }

  /** relate_files_to_events and relate_agents_to_events: every event named by an element gets the element. */
  method Relate(sources: References, targets0: References) returns (targets: References)
    ensures targets == Related(sources, targets0)
  {
    targets := targets0;
    var todo := sources.Keys;
    while todo != {}
      invariant todo <= sources.Keys && PartlyRelated(sources, todo, targets0, targets)
      decreases |todo|
    {
      var x :| x in todo;
      ghost var before := targets;
      targets := RelateOne(targets, x, sources[x]);
      RelateStep(sources, todo, targets0, before, x, targets);
      todo := todo - {x};
    }
    RelateEnd(sources, targets0, targets);
  }

  method RelateOne(targets0: References, x: Identifier, named: set<Identifier>) returns (targets: References)
    ensures targets.Keys == targets0.Keys
    ensures forall e | e in targets :: targets[e] == if e in named then targets0[e] + {x} else targets0[e]
  {
    targets := targets0;
    var todo := named;
    while todo != {}
      invariant todo <= named && targets.Keys == targets0.Keys
      invariant forall e | e in targets :: targets[e] == if e in named - todo then targets0[e] + {x} else targets0[e]
      decreases |todo|
    {
      var e :| e in todo;
      todo := todo - {e};
      if e in targets {
        targets := targets[e := targets[e] + {x}];
      }
    }
  }

  // ---------------------------------------------------------------- the checks

  /** Some element is in none of the sets. */
  predicate Unrelated(elements: set<Identifier>, related: References) {
    exists x | x in elements :: forall e | e in related :: x !in related[e]
  }

  /** Some reference leads nowhere. */
  predicate Dangling(references: References, existing: set<Identifier>) {
    exists x | x in references :: !(references[x] <= existing)
  }

  predicate Empty(references: References) {
    exists x | x in references :: references[x] == {}
  }

  /** print_unrelated_files and print_unrelated_agents. */
  method FindUnrelated(elements: set<Identifier>, related: References) returns (result: bool)
    ensures result <==> Unrelated(elements, related)
  {
    result := false;
    var all, todo := {}, related.Keys;
    while todo != {}
      invariant todo <= related.Keys
      invariant forall x :: x in all <==> exists e | e in related && e !in todo :: x in related[e]
      decreases |todo|
    {
      var e :| e in todo;
      todo := todo - {e};
      all := all + related[e];
    }
    var left := elements;
    while left != {}
      invariant left <= elements && (result <==> exists x | x in elements - left :: x !in all)
      decreases |left|
    {
      var x :| x in left;
      left := left - {x};
      if x !in all {
        result := true;
      }
    }
    assert elements - left == elements;
  }

  /** The four searches for references to nonexistent elements. */
  method FindDangling(references: References, existing: set<Identifier>) returns (result: bool)
    ensures result <==> Dangling(references, existing)
  {
    result := false;
    var todo := references.Keys;
    while todo != {}
      invariant todo <= references.Keys
      invariant result <==> exists x | x in references && x !in todo :: !(references[x] <= existing)
      decreases |todo|
    {
      var x :| x in todo;
      todo := todo - {x};
      DifferenceEmpty(references[x], existing);
      if references[x] - existing != {} {
        result := true;
      }
    }
  }

  lemma DifferenceEmpty(a: set<Identifier>, b: set<Identifier>)
    ensures a - b == {} <==> a <= b
  {
    if !(a <= b) {
      var x :| x in a && x !in b;
      assert x in a - b;
    }
  }

  /** print_unrelated_events. */
  method FindUnrelatedEvents(files: References, agents: References) returns (result: bool)
    requires files.Keys == agents.Keys
    ensures result <==> Empty(files) || Empty(agents)
  {
    result := false;
    var todo := files.Keys;
    while todo != {}
      invariant todo <= files.Keys
      invariant result <==> exists e | e in files && e !in todo :: files[e] == {} || agents[e] == {}
      decreases |todo|
    {
      var e :| e in todo;
      todo := todo - {e};
      if files[e] == {} {
        result := true;
      }
      if agents[e] == {} {
        result := true;
      }
    }
  }

  /** The file is named and one of the transfer's. */
  predicate ValidFile(files: Files, locations: map<string, nat>, f: Identifier) {
    f in files && files[f].originalName != "" && LocationOf(files[f]) in locations
  }

  function LocationOf(file: FileElement): string {
    TRANSFER_ORIGINAL_LOCATION_PREFIX + file.originalName
  }

  method GetInvalidFileIdentifiers(files: Files, locations: map<string, nat>) returns (result: set<Identifier>)
    ensures result == set f | f in files && !ValidFile(files, locations, f)
  {
    result := {};
    var todo := files.Keys;
    while todo != {}
      invariant todo <= files.Keys
      invariant result == set f | f in files && f !in todo && !ValidFile(files, locations, f)
      decreases |todo|
    {
      var f :| f in todo;
      todo := todo - {f};
      if files[f].originalName == "" || LocationOf(files[f]) !in locations {
        result := result + {f};
      }
    }
  }

  // ---------------------------------------------------------------- the events that can be saved

  /** The parsed elements. */
  datatype Premis = Premis(files: Files, agents: Agents, events: Events)

  function FilesOf(p: Premis): References {
    Related(FileEvents(p.files), EventFiles(p.events))
  }

  function AgentsOf(p: Premis): References {
    Related(AgentEvents(p.agents), EventAgents(p.events))
  }

  datatype ValidEvent = ValidEvent(id: Identifier, agents: set<Identifier>, files: seq<Identifier>)

  function ExistingAgents(p: Premis, e: Identifier): set<Identifier>
    requires e in p.events
  {
    AgentsOf(p)[e] * p.agents.Keys
  }

  function ValidFiles(p: Premis, locations: map<string, nat>, e: Identifier): set<Identifier>
    requires e in p.events
  {
    set f | f in FilesOf(p)[e] && ValidFile(p.files, locations, f)
  }

  predicate Complete(p: Premis, locations: map<string, nat>, e: Identifier)
    requires e in p.events
  {
    ExistingAgents(p, e) != {} && ValidFiles(p, locations, e) != {}
  }

  function CompleteEvents(p: Premis, locations: map<string, nat>): set<Identifier> {
    set e | e in p.events && Complete(p, locations, e)
  }

  ghost predicate IsValidEvent(v: ValidEvent, p: Premis, locations: map<string, nat>) {
    && v.id in p.events
    && v.agents == ExistingAgents(p, v.id)
    && Distinct(v.files) && forall f :: f in v.files <==> f in ValidFiles(p, locations, v.id)
  }

  ghost predicate AllValid(valid: seq<ValidEvent>, p: Premis, locations: map<string, nat>) {
    forall v | v in valid :: IsValidEvent(v, p, locations)
  }

  function EventsOf(valid: seq<ValidEvent>): seq<Identifier> {
    if valid == [] then [] else [valid[0].id] + EventsOf(valid[1..])
  }

  /** The elements of a set in some order. */
  method Listed(s: set<Identifier>) returns (list: seq<Identifier>)
    ensures Distinct(list) && forall x :: x in list <==> x in s
  {
    list := [];
    var todo := s;
    while todo != {}
      invariant todo <= s && Distinct(list) && forall x :: x in list <==> x in s - todo
      decreases |todo|
    {
      var x :| x in todo;
      todo := todo - {x};
      DistinctConcat([x], list);
      list := [x] + list;
    }
  }

  lemma CompleteHere(p: Premis, locations: map<string, nat>, e: Identifier, ignored: set<Identifier>)
    requires e in p.events && ignored == set f | f in p.files && !ValidFile(p.files, locations, f)
    ensures FilesOf(p)[e] * p.files.Keys - ignored == ValidFiles(p, locations, e)
    ensures e in CompleteEvents(p, locations)
            <==> AgentsOf(p)[e] * p.agents.Keys != {} && ValidFiles(p, locations, e) != {}
  {
  }

  lemma ValidAdded(v: ValidEvent, valid: seq<ValidEvent>, p: Premis, locations: map<string, nat>)
    requires IsValidEvent(v, p, locations) && v.id !in EventsOf(valid)
    requires AllValid(valid, p, locations) && Distinct(EventsOf(valid))
    ensures AllValid([v] + valid, p, locations) && Distinct(EventsOf([v] + valid))
    ensures EventsOf([v] + valid) == [v.id] + EventsOf(valid)
  {
    assert ([v] + valid)[1..] == valid;
    DistinctConcat([v.id], EventsOf(valid));
  }

  method GetValidEvents(
    p: Premis, locations: map<string, nat>, files: References, agents: References, ignored: set<Identifier>)
    returns (result: seq<ValidEvent>, invalidExist: bool)
    requires files == FilesOf(p) && agents == AgentsOf(p)
    requires ignored == set f | f in p.files && !ValidFile(p.files, locations, f)
    ensures invalidExist <==> !(p.events.Keys <= CompleteEvents(p, locations))
    ensures AllValid(result, p, locations) && Distinct(EventsOf(result))
    ensures forall e :: e in EventsOf(result) <==> e in CompleteEvents(p, locations)
  {
    result, invalidExist := [], false;
    var todo := p.events.Keys;
    ghost var complete := CompleteEvents(p, locations);
    while todo != {}
      invariant todo <= p.events.Keys
      invariant invalidExist <==> !(p.events.Keys - todo <= complete)
      invariant AllValid(result, p, locations) && Distinct(EventsOf(result))
      invariant forall e :: e in EventsOf(result) <==> e in complete && e !in todo
      decreases todo
    {
      var e :| e in todo;
      todo := todo - {e};
      var eventAgents, eventFiles := agents[e] * p.agents.Keys, files[e] * p.files.Keys - ignored;
      CompleteHere(p, locations, e, ignored);
      if eventAgents == {} || eventFiles == {} {
        invalidExist := true;
      } else {
        var list := Listed(eventFiles);
        var v := ValidEvent(e, eventAgents, list);
        ValidAdded(v, result, p, locations);
        result := [v] + result;
      }
    }
  }

  // ---------------------------------------------------------------- saving

  datatype Row = Row(eventId: string, event: Identifier, file: nat, agents: set<Identifier>)

  /** Whether a text is a UUID, and a UUID that is not among the given ones. */
  datatype Uuids = Uuids(isUuid: string -> bool, another: set<string> -> string)

  ghost predicate Fresh(u: Uuids) {
    forall used :: u.another(used) !in used
  }

  function UsedIds(rows: seq<Row>): set<string> {
    set r | r in rows :: r.eventId
  }

  /** ensure_event_id_is_uuid. */
  function EnsureId(rows: seq<Row>, eventId: string, u: Uuids): string {
    if u.isUuid(eventId) && eventId !in UsedIds(rows) then eventId else u.another(UsedIds(rows))
  }

  predicate AllFilesValid(files: seq<Identifier>, p: Premis, locations: map<string, nat>) {
    forall f | f in files :: ValidFile(p.files, locations, f)
  }

  /** The rows of one event, one for each of its files. */
  function FilesSaved(
    rows: seq<Row>, v: ValidEvent, eventId: string, todo: seq<Identifier>, p: Premis, locations: map<string, nat>,
    u: Uuids): seq<Row>
    requires AllFilesValid(todo, p, locations)
    decreases |todo|
  {
    if todo == [] then rows
    else
      var id := EnsureId(rows, eventId, u);
      assert ValidFile(p.files, locations, todo[0]);
      var row := Row(id, v.id, locations[LocationOf(p.files[todo[0]])], v.agents);
      FilesSaved(rows + [row], v, id, todo[1..], p, locations, u)
  }

  ghost function EventsSaved(
    rows: seq<Row>, valid: seq<ValidEvent>, p: Premis, locations: map<string, nat>, u: Uuids): seq<Row>
    requires AllValid(valid, p, locations)
    decreases |valid|
  {
    if valid == [] then rows
    else
      assert IsValidEvent(valid[0], p, locations);
      EventsSaved(
        FilesSaved(rows, valid[0], p.events[valid[0].id].eventId, valid[0].files, p, locations, u),
        valid[1..], p, locations, u)
  }

  class EventTable {
    var rows: seq<Row>

    method SaveEvents(valid: seq<ValidEvent>, p: Premis, locations: map<string, nat>, u: Uuids)
      requires AllValid(valid, p, locations)
      modifies this
      ensures rows == EventsSaved(old(rows), valid, p, locations, u)
    {
      var i := 0;
      while i < |valid|
        invariant i <= |valid|
        invariant EventsSaved(old(rows), valid, p, locations, u) == EventsSaved(rows, valid[i..], p, locations, u)
      {
        assert valid[i..][1..] == valid[i + 1..] && valid[i] in valid;
        SaveEvent(valid[i], p, locations, u);
        i := i + 1;
      }
    }

    method SaveEvent(v: ValidEvent, p: Premis, locations: map<string, nat>, u: Uuids)
      requires IsValidEvent(v, p, locations)
      modifies this
      ensures rows == FilesSaved(old(rows), v, p.events[v.id].eventId, v.files, p, locations, u)
    {
      var eventId := p.events[v.id].eventId;
      var j := 0;
      while j < |v.files|
        invariant j <= |v.files| && AllFilesValid(v.files[j..], p, locations)
        invariant FilesSaved(old(rows), v, p.events[v.id].eventId, v.files, p, locations, u)
                  == FilesSaved(rows, v, eventId, v.files[j..], p, locations, u)
      {
        assert v.files[j..][1..] == v.files[j + 1..] && v.files[j] in v.files;
        eventId := EnsureId(rows, eventId, u);
        rows := rows + [Row(eventId, v.id, locations[LocationOf(p.files[v.files[j]])], v.agents)];
        j := j + 1;
      }
    }

    /** main: premis is None if the file does not pass schema validation. */
    method Import(
      present: bool, premis: Option<Premis>, locations: map<string, nat>, u: Uuids)
      returns (success: bool, ghost valid: seq<ValidEvent>)
      modifies this
      ensures !present ==> success && rows == old(rows)
      ensures present && premis.None? ==> !success && rows == old(rows)
      ensures present && premis.Some? ==> (success <==> WellLinked(premis.value, locations))
      ensures present && premis.Some? && !success ==> rows == old(rows)
      ensures present && premis.Some? && success ==>
                && AllValid(valid, premis.value, locations) && Distinct(EventsOf(valid))
                && (forall e :: e in EventsOf(valid) <==> e in premis.value.events)
                && rows == EventsSaved(old(rows), valid, premis.value, locations, u)
    {
      valid := [];
      if !present {
        return true, valid;
      }
      if premis.None? {
        return false, valid;
      }
      var p := premis.value;
      var ignored := GetInvalidFileIdentifiers(p.files, locations);
      var files := Relate(FileEvents(p.files), EventFiles(p.events));
      var agents := Relate(AgentEvents(p.agents), EventAgents(p.events));
      var unrelated := SearchUnrelated(p, files, agents);
      var dangling := SearchDangling(p, files, agents);
      var toSave, invalidExist := GetValidEvents(p, locations, files, agents, ignored);
      CheckedIsWellLinked(p, locations);
      if unrelated || dangling || invalidExist {
        return false, valid;
      }
      SaveEvents(toSave, p, locations, u);
      return true, toSave;
    }
  }

  /** print_unrelated_elements: later searches are skipped once one finds something. */
  method SearchUnrelated(p: Premis, files: References, agents: References) returns (found: bool)
    requires files == FilesOf(p) && agents == AgentsOf(p)
    ensures found <==> AnyUnrelated(p)
  {
    found := FindUnrelated(p.files.Keys, files);
    if !found {
      found := FindUnrelated(p.agents.Keys, agents);
    }
    if !found {
      found := FindUnrelatedEvents(files, agents);
    }
  }

  /** print_nonexistent_references. */
  method SearchDangling(p: Premis, files: References, agents: References) returns (found: bool)
    requires files == FilesOf(p) && agents == AgentsOf(p)
    ensures found <==> AnyDangling(p)
  {
    found := FindDangling(FileEvents(p.files), p.events.Keys);
    if !found {
      found := FindDangling(AgentEvents(p.agents), p.events.Keys);
    }
    if !found {
      found := FindDangling(files, p.files.Keys);
    }
    if !found {
      found := FindDangling(agents, p.agents.Keys);
    }
  }

  predicate AnyUnrelated(p: Premis) {
    Unrelated(p.files.Keys, FilesOf(p)) || Unrelated(p.agents.Keys, AgentsOf(p)) || Empty(FilesOf(p))
      || Empty(AgentsOf(p))
  }

  predicate AnyDangling(p: Premis) {
    || Dangling(FileEvents(p.files), p.events.Keys) || Dangling(AgentEvents(p.agents), p.events.Keys)
    || Dangling(FilesOf(p), p.files.Keys) || Dangling(AgentsOf(p), p.agents.Keys)
  }

  // ---------------------------------------------------------------- the graph

  /** An event and an element are linked from either side. */
  predicate Link(own: References, naming: References, e: Identifier, x: Identifier) {
    (e in own && x in own[e]) || (x in naming && e in naming[x])
  }

  /** The link between an event and a file is stated by one of them. */
  predicate FileLink(p: Premis, e: Identifier, f: Identifier) {
    (e in p.events && f in p.events[e].files) || (f in p.files && e in p.files[f].events)
  }

  predicate AgentLink(p: Premis, e: Identifier, a: Identifier) {
    (e in p.events && a in p.events[e].agents) || (a in p.agents && e in p.agents[a].events)
  }

  lemma FileLinkIsLink(p: Premis, e: Identifier, f: Identifier)
    ensures FileLink(p, e, f) <==> Link(EventFiles(p.events), FileEvents(p.files), e, f)
  {
  }

  lemma AgentLinkIsLink(p: Premis, e: Identifier, a: Identifier)
    ensures AgentLink(p, e, a) <==> Link(EventAgents(p.events), AgentEvents(p.agents), e, a)
  {
  }

  ghost predicate LinksExist(own: References, naming: References) {
    forall e, x | Link(own, naming, e, x) :: e in own && x in naming
  }

  ghost predicate AllLinked(own: References, naming: References) {
    forall x | x in naming :: exists e :: Link(own, naming, e, x)
  }

  /** The file of the transfer that a file element names. */
  predicate InTransfer(p: Premis, locations: map<string, nat>, f: Identifier) {
    f in p.files && p.files[f].originalName != "" && "%transferDirectory%" + p.files[f].originalName in locations
  }

  lemma InTransferIsValid(p: Premis, locations: map<string, nat>, f: Identifier)
    ensures InTransfer(p, locations, f) <==> ValidFile(p.files, locations, f)
  {
  }

  /** All links lead to elements of the document; every file and agent is linked to an event; every event is
      linked to an agent and to a file of the transfer. */
  ghost predicate WellLinked(p: Premis, locations: map<string, nat>) {
    FileLinksLead(p) && AgentLinksLead(p) && FilesLinked(p) && AgentsLinked(p) && EventsLinked(p, locations)
  }

  ghost predicate FileLinksLead(p: Premis) {
    forall e, f | FileLink(p, e, f) :: e in p.events && f in p.files
  }

  ghost predicate AgentLinksLead(p: Premis) {
    forall e, a | AgentLink(p, e, a) :: e in p.events && a in p.agents
  }

  ghost predicate FilesLinked(p: Premis) {
    forall f | f in p.files :: exists e :: FileLink(p, e, f)
  }

  ghost predicate AgentsLinked(p: Premis) {
    forall a | a in p.agents :: exists e :: AgentLink(p, e, a)
  }

  ghost predicate EventsLinked(p: Premis, locations: map<string, nat>) {
    forall e | e in p.events :: EventLinked(p, locations, e)
  }

  ghost predicate EventLinked(p: Premis, locations: map<string, nat>, e: Identifier) {
    (exists f :: FileLink(p, e, f) && InTransfer(p, locations, f)) && (exists a :: AgentLink(p, e, a))
  }

  lemma FileLinksInMaps(p: Premis)
    ensures FileLinksLead(p) <==> LinksExist(EventFiles(p.events), FileEvents(p.files))
  {
    var own, naming := EventFiles(p.events), FileEvents(p.files);
    assert own.Keys == p.events.Keys && naming.Keys == p.files.Keys;
    if LinksExist(own, naming) {
      forall e, x | FileLink(p, e, x) ensures e in p.events && x in p.files {
        FileLinkIsLink(p, e, x);
      }
    } else {
      var e, x :| Link(own, naming, e, x) && !(e in own && x in naming);
      FileLinkIsLink(p, e, x);
    }
  }

  lemma FilesLinkedInMaps(p: Premis)
    ensures FilesLinked(p) <==> AllLinked(EventFiles(p.events), FileEvents(p.files))
  {
    var own, naming := EventFiles(p.events), FileEvents(p.files);
    assert naming.Keys == p.files.Keys;
    forall x | x in p.files ensures (exists e :: FileLink(p, e, x)) <==> exists e :: Link(own, naming, e, x) {
      if e :| FileLink(p, e, x) {
        FileLinkIsLink(p, e, x);
      }
      if e :| Link(own, naming, e, x) {
        FileLinkIsLink(p, e, x);
      }
    }
  }

  lemma AgentLinksInMaps(p: Premis)
    ensures AgentLinksLead(p) <==> LinksExist(EventAgents(p.events), AgentEvents(p.agents))
  {
    var own, naming := EventAgents(p.events), AgentEvents(p.agents);
    assert own.Keys == p.events.Keys && naming.Keys == p.agents.Keys;
    if LinksExist(own, naming) {
      forall e, x | AgentLink(p, e, x) ensures e in p.events && x in p.agents {
        AgentLinkIsLink(p, e, x);
      }
    } else {
      var e, x :| Link(own, naming, e, x) && !(e in own && x in naming);
      AgentLinkIsLink(p, e, x);
    }
  }

  lemma AgentsLinkedInMaps(p: Premis)
    ensures AgentsLinked(p) <==> AllLinked(EventAgents(p.events), AgentEvents(p.agents))
  {
    var own, naming := EventAgents(p.events), AgentEvents(p.agents);
    assert naming.Keys == p.agents.Keys;
    forall x | x in p.agents ensures (exists e :: AgentLink(p, e, x)) <==> exists e :: Link(own, naming, e, x) {
      if e :| AgentLink(p, e, x) {
        AgentLinkIsLink(p, e, x);
      }
      if e :| Link(own, naming, e, x) {
        AgentLinkIsLink(p, e, x);
      }
    }
  }

  lemma RelatedIsLink(own: References, naming: References, e: Identifier, x: Identifier)
    requires e in own
    ensures x in Related(naming, own)[e] <==> Link(own, naming, e, x)
  {
  }

  lemma DanglingIsLost(own: References, naming: References)
    ensures !Dangling(naming, own.Keys) && !Dangling(Related(naming, own), naming.Keys) <==> LinksExist(own, naming)
  {
    if !Dangling(naming, own.Keys) && !Dangling(Related(naming, own), naming.Keys) {
      forall e, x | Link(own, naming, e, x) ensures e in own && x in naming {
        if x in naming && e in naming[x] {
          assert naming[x] <= own.Keys;
        } else {
          assert Related(naming, own)[e] <= naming.Keys;
          RelatedIsLink(own, naming, e, x);
        }
      }
    }
    if LinksExist(own, naming) {
      forall x | x in naming ensures naming[x] <= own.Keys {
        assert forall e | e in naming[x] :: Link(own, naming, e, x);
      }
      forall e | e in own ensures Related(naming, own)[e] <= naming.Keys {
        forall x | x in Related(naming, own)[e] ensures x in naming {
          RelatedIsLink(own, naming, e, x);
        }
      }
    }
  }

  lemma UnrelatedIsUnlinked(own: References, naming: References)
    requires LinksExist(own, naming)
    ensures !Unrelated(naming.Keys, Related(naming, own)) <==> AllLinked(own, naming)
  {
    var related := Related(naming, own);
    forall x | x in naming
      ensures (exists e | e in related :: x in related[e]) <==> exists e :: Link(own, naming, e, x)
    {
      if e :| e in related && x in related[e] {
        RelatedIsLink(own, naming, e, x);
      }
      if e :| Link(own, naming, e, x) {
        RelatedIsLink(own, naming, e, x);
      }
    }
  }

  lemma CompleteIsLinked(p: Premis, locations: map<string, nat>, e: Identifier)
    requires e in p.events && LinksExist(EventAgents(p.events), AgentEvents(p.agents))
    ensures Complete(p, locations, e) <==> EventLinked(p, locations, e)
  {
    if Complete(p, locations, e) {
      var f :| f in ValidFiles(p, locations, e);
      RelatedIsLink(EventFiles(p.events), FileEvents(p.files), e, f);
      assert FileLink(p, e, f);
      var a :| a in ExistingAgents(p, e);
      RelatedIsLink(EventAgents(p.events), AgentEvents(p.agents), e, a);
      assert AgentLink(p, e, a);
    }
    if f, a :| FileLink(p, e, f) && InTransfer(p, locations, f) && AgentLink(p, e, a) {
      RelatedIsLink(EventFiles(p.events), FileEvents(p.files), e, f);
      RelatedIsLink(EventAgents(p.events), AgentEvents(p.agents), e, a);
      assert f in ValidFiles(p, locations, e) && a in ExistingAgents(p, e);
    }
  }

  lemma KeysOfReferences(p: Premis)
    ensures FileEvents(p.files).Keys == p.files.Keys && AgentEvents(p.agents).Keys == p.agents.Keys
    ensures EventFiles(p.events).Keys == p.events.Keys && EventAgents(p.events).Keys == p.events.Keys
  {
  }

  lemma NoneDangling(p: Premis)
    ensures !AnyDangling(p)
            <==> && LinksExist(EventFiles(p.events), FileEvents(p.files))
                 && LinksExist(EventAgents(p.events), AgentEvents(p.agents))
  {
    KeysOfReferences(p);
    DanglingIsLost(EventFiles(p.events), FileEvents(p.files));
    DanglingIsLost(EventAgents(p.events), AgentEvents(p.agents));
  }

  lemma NoneUnrelated(p: Premis)
    requires !AnyDangling(p)
    ensures !Unrelated(p.files.Keys, FilesOf(p)) && !Unrelated(p.agents.Keys, AgentsOf(p))
            <==> && AllLinked(EventFiles(p.events), FileEvents(p.files))
                 && AllLinked(EventAgents(p.events), AgentEvents(p.agents))
  {
    NoneDangling(p);
    KeysOfReferences(p);
    UnrelatedIsUnlinked(EventFiles(p.events), FileEvents(p.files));
    UnrelatedIsUnlinked(EventAgents(p.events), AgentEvents(p.agents));
  }

  lemma {:induction false} AllEventsLinked(p: Premis, locations: map<string, nat>)
    requires !AnyDangling(p)
    ensures p.events.Keys <= CompleteEvents(p, locations) <==> EventsLinked(p, locations)
  {
    NoneDangling(p);
    forall e | e in p.events ensures Complete(p, locations, e) <==> EventLinked(p, locations, e) {
      CompleteIsLinked(p, locations, e);
    }
  }

  /** The searches of the import decide exactly whether the document is well linked. */
  lemma CheckedIsWellLinked(p: Premis, locations: map<string, nat>)
    ensures WellLinked(p, locations)
            <==> !AnyUnrelated(p) && !AnyDangling(p) && p.events.Keys <= CompleteEvents(p, locations)
  {
    FileLinksInMaps(p);
    AgentLinksInMaps(p);
    FilesLinkedInMaps(p);
    AgentsLinkedInMaps(p);
    NoneDangling(p);
    if !AnyDangling(p) {
      NoneUnrelated(p);
      AllEventsLinked(p, locations);
      NeverEmpty(p, locations);
    }
  }

  lemma NeverEmpty(p: Premis, locations: map<string, nat>)
    ensures p.events.Keys <= CompleteEvents(p, locations) ==> !Empty(FilesOf(p)) && !Empty(AgentsOf(p))
  {
    if p.events.Keys <= CompleteEvents(p, locations) {
      forall e | e in p.events ensures FilesOf(p)[e] != {} && AgentsOf(p)[e] != {} {
        assert Complete(p, locations, e);
        var f :| f in ValidFiles(p, locations, e);
        assert f in FilesOf(p)[e];
      }
    }
  }

  // ---------------------------------------------------------------- what is saved

  /** The links to save: each event with each of its files, in the order they are saved. */
  function LinksOf(v: ValidEvent, files: seq<Identifier>): seq<(Identifier, Identifier)> {
    if files == [] then [] else [(v.id, files[0])] + LinksOf(v, files[1..])
  }

  function EventLinks(valid: seq<ValidEvent>): seq<(Identifier, Identifier)> {
    if valid == [] then [] else LinksOf(valid[0], valid[0].files) + EventLinks(valid[1..])
  }

  /** The row says that the event is about the file. */
  predicate RowHolds(row: Row, link: (Identifier, Identifier), p: Premis, locations: map<string, nat>) {
    && InTransfer(p, locations, link.1) && row.event == link.0
    && row.file == locations["%transferDirectory%" + p.files[link.1].originalName]
  }

  /** After the first rows there is one for each link, in this order. */
  predicate RowsHold(
    start: nat, saved: seq<Row>, links: seq<(Identifier, Identifier)>, p: Premis, locations: map<string, nat>) {
    && |saved| == start + |links|
    && forall k | 0 <= k < |links| :: RowHolds(saved[start + k], links[k], p, locations)
  }

  lemma {:induction false} FilesSavedHold(
    rows: seq<Row>, v: ValidEvent, eventId: string, todo: seq<Identifier>, p: Premis, locations: map<string, nat>,
    u: Uuids)
    requires AllFilesValid(todo, p, locations)
    ensures var saved := FilesSaved(rows, v, eventId, todo, p, locations, u);
            rows <= saved && RowsHold(|rows|, saved, LinksOf(v, todo), p, locations)
    decreases |todo|
  {
    if todo != [] {
      assert ValidFile(p.files, locations, todo[0]);
      var id := EnsureId(rows, eventId, u);
      var next := rows + [Row(id, v.id, locations[LocationOf(p.files[todo[0]])], v.agents)];
      FilesSavedHold(next, v, id, todo[1..], p, locations, u);
      var saved := FilesSaved(next, v, id, todo[1..], p, locations, u);
      assert saved[|rows|] == next[|rows|];
      assert RowsHold(|rows|, next, [(v.id, todo[0])], p, locations);
      RowsHoldConcat(|rows|, next, saved, [(v.id, todo[0])], LinksOf(v, todo[1..]), p, locations);
    }
  }

  lemma RowsHoldConcat(
    start: nat, next: seq<Row>, saved: seq<Row>, a: seq<(Identifier, Identifier)>, b: seq<(Identifier, Identifier)>,
    p: Premis, locations: map<string, nat>)
    requires next <= saved && RowsHold(start, next, a, p, locations) && RowsHold(|next|, saved, b, p, locations)
    ensures RowsHold(start, saved, a + b, p, locations)
  {
    forall k | 0 <= k < |a + b| ensures RowHolds(saved[start + k], (a + b)[k], p, locations) {
      if k < |a| {
        assert saved[start + k] == next[start + k] && RowHolds(next[start + k], a[k], p, locations);
      } else {
        assert RowHolds(saved[|next| + (k - |a|)], b[k - |a|], p, locations);
      }
    }
  }

  lemma {:induction false} EventsSavedHold(
    rows: seq<Row>, valid: seq<ValidEvent>, p: Premis, locations: map<string, nat>, u: Uuids)
    requires AllValid(valid, p, locations)
    ensures var saved := EventsSaved(rows, valid, p, locations, u);
            rows <= saved && RowsHold(|rows|, saved, EventLinks(valid), p, locations)
    decreases |valid|
  {
    if valid != [] {
      var v := valid[0];
      assert IsValidEvent(v, p, locations);
      var next := FilesSaved(rows, v, p.events[v.id].eventId, v.files, p, locations, u);
      FilesSavedHold(rows, v, p.events[v.id].eventId, v.files, p, locations, u);
      EventsSavedHold(next, valid[1..], p, locations, u);
      RowsHoldConcat(
        |rows|, next, EventsSaved(next, valid[1..], p, locations, u), LinksOf(v, v.files), EventLinks(valid[1..]), p,
        locations);
    }
  }

  // ---------------------------------------------------------------- distinct identifiers

  predicate IdsDiffer(rows: seq<Row>) {
    forall i, j | 0 <= i < j < |rows| :: rows[i].eventId != rows[j].eventId
  }

  lemma UnusedDiffers(rows: seq<Row>, row: Row)
    requires IdsDiffer(rows) && row.eventId !in UsedIds(rows)
    ensures IdsDiffer(rows + [row])
  {
    forall i | 0 <= i < |rows| ensures rows[i].eventId != row.eventId {
      assert rows[i] in rows;
    }
  }

  lemma {:induction false} FileIdsDiffer(
    rows: seq<Row>, v: ValidEvent, eventId: string, todo: seq<Identifier>, p: Premis, locations: map<string, nat>,
    u: Uuids)
    requires AllFilesValid(todo, p, locations) && Fresh(u) && IdsDiffer(rows)
    ensures IdsDiffer(FilesSaved(rows, v, eventId, todo, p, locations, u))
    decreases |todo|
  {
    if todo != [] {
      assert ValidFile(p.files, locations, todo[0]);
      var id := EnsureId(rows, eventId, u);
      var row := Row(id, v.id, locations[LocationOf(p.files[todo[0]])], v.agents);
      UnusedDiffers(rows, row);
      FileIdsDiffer(rows + [row], v, id, todo[1..], p, locations, u);
    }
  }

  lemma {:induction false} EventIdsDiffer(
    rows: seq<Row>, valid: seq<ValidEvent>, p: Premis, locations: map<string, nat>, u: Uuids)
    requires AllValid(valid, p, locations) && Fresh(u) && IdsDiffer(rows)
    ensures IdsDiffer(EventsSaved(rows, valid, p, locations, u))
    decreases |valid|
  {
    if valid != [] {
      var v := valid[0];
      assert IsValidEvent(v, p, locations);
      FileIdsDiffer(rows, v, p.events[v.id].eventId, v.files, p, locations, u);
      EventIdsDiffer(
        FilesSaved(rows, v, p.events[v.id].eventId, v.files, p, locations, u), valid[1..], p, locations, u);
    }
  }

  // ---------------------------------------------------------------- the links of the document

  lemma {:induction false} LinksHold(v: ValidEvent, files: seq<Identifier>, e: Identifier, f: Identifier)
    ensures (e, f) in LinksOf(v, files) <==> e == v.id && f in files
  {
    if files != [] {
      LinksHold(v, files[1..], e, f);
      assert files == [files[0]] + files[1..];
    }
  }

  /** A link is saved exactly if the document links the event to the file and the file is valid. */
  lemma {:induction false} EventLinksHold(
    valid: seq<ValidEvent>, p: Premis, locations: map<string, nat>, e: Identifier, f: Identifier)
    requires AllValid(valid, p, locations)
    ensures (e, f) in EventLinks(valid)
            <==> e in EventsOf(valid) && FileLink(p, e, f) && InTransfer(p, locations, f)
  {
    InTransferIsValid(p, locations, f);
    if valid != [] {
      var v := valid[0];
      assert IsValidEvent(v, p, locations);
      EventLinksHold(valid[1..], p, locations, e, f);
      LinksHold(v, v.files, e, f);
      if e == v.id {
        RelatedIsLink(EventFiles(p.events), FileEvents(p.files), e, f);
      }
    }
  }

  lemma {:induction false} LinksOnce(v: ValidEvent, files: seq<Identifier>)
    requires Distinct(files)
    ensures Distinct(LinksOf(v, files))
  {
    if files != [] {
      LinksOnce(v, files[1..]);
      LinksHold(v, files[1..], v.id, files[0]);
    }
  }

  lemma {:induction false} EventLinksOnce(valid: seq<ValidEvent>, p: Premis, locations: map<string, nat>)
    requires AllValid(valid, p, locations) && Distinct(EventsOf(valid))
    ensures Distinct(EventLinks(valid))
  {
    if valid != [] {
      var v := valid[0];
      assert IsValidEvent(v, p, locations) && EventsOf(valid)[1..] == EventsOf(valid[1..]);
      DistinctHead(EventsOf(valid));
      LinksOnce(v, v.files);
      EventLinksOnce(valid[1..], p, locations);
      forall x | x in LinksOf(v, v.files) ensures x !in EventLinks(valid[1..]) {
        LinksHold(v, v.files, x.0, x.1);
        EventLinksHold(valid[1..], p, locations, x.0, x.1);
      }
      DistinctConcat(LinksOf(v, v.files), EventLinks(valid[1..]));
    }
  }

  // ---------------------------------------------------------------- what a row holds

  /** The identifier of a saved row: that of its event if this is the first row of the event and the identifier is a
      UUID that no row has, or else another one, which none has either. */
  ghost predicate IdChosen(start: nat, saved: seq<Row>, i: nat, p: Premis, u: Uuids) {
    start <= i < |saved| && saved[i].event in p.events &&
    var own := p.events[saved[i].event].eventId;
    var first := forall j | start <= j < i :: saved[j].event != saved[i].event;
    var unused := forall j | 0 <= j < i :: saved[j].eventId != own;
    saved[i].eventId
    == if first && unused && u.isUuid(own) then own else u.another(set r | r in saved[..i] :: r.eventId)
  }

  /** The agents of a saved row are those of the document that its event is linked with, from either side. */
  ghost predicate AgentsKept(saved: seq<Row>, i: nat, p: Premis) {
    i < |saved| && forall a :: a in saved[i].agents <==> a in p.agents && AgentLink(p, saved[i].event, a)
  }

  ghost predicate RowRight(start: nat, saved: seq<Row>, i: nat, p: Premis, u: Uuids) {
    IdChosen(start, saved, i, p, u) && AgentsKept(saved, i, p)
  }

  lemma RowStays(start: nat, a: seq<Row>, b: seq<Row>, i: nat, p: Premis, u: Uuids)
    requires RowRight(start, a, i, p, u) && a <= b
    ensures RowRight(start, b, i, p, u)
  {
    assert b[..i] == a[..i] && b[i] == a[i];
    assert forall j | 0 <= j < i :: b[j] == a[j];
  }

  lemma AgentsOfEvent(p: Premis, locations: map<string, nat>, v: ValidEvent, a: Identifier)
    requires IsValidEvent(v, p, locations)
    ensures a in v.agents <==> a in p.agents && AgentLink(p, v.id, a)
  {
    RelatedIsLink(EventAgents(p.events), AgentEvents(p.agents), v.id, a);
  }

  /** No row of the event has been saved yet and its identifier is its own, or one has been and its identifier is
      taken. */
  ghost predicate Underway(start: nat, rows: seq<Row>, v: ValidEvent, eventId: string, p: Premis) {
    && start <= |rows| && v.id in p.events
    && if forall j | start <= j < |rows| :: rows[j].event != v.id then eventId == p.events[v.id].eventId
       else exists r :: r in rows && r.eventId == eventId
  }

  lemma NextRow(
    start: nat, rows: seq<Row>, v: ValidEvent, eventId: string, file: nat, p: Premis, locations: map<string, nat>,
    u: Uuids)
    requires IsValidEvent(v, p, locations) && Underway(start, rows, v, eventId, p)
    ensures var id := EnsureId(rows, eventId, u);
            var next := rows + [Row(id, v.id, file, v.agents)];
            RowRight(start, next, |rows|, p, u) && Underway(start, next, v, id, p)
  {
    var id := EnsureId(rows, eventId, u);
    var row := Row(id, v.id, file, v.agents);
    var next := rows + [row];
    assert next[..|rows|] == rows && next[|rows|] == row && row in next;
    assert forall j | 0 <= j < |rows| :: next[j] == rows[j];
    assert UsedIds(rows) == set r | r in rows :: r.eventId;
    forall x ensures x in UsedIds(rows) <==> exists j :: 0 <= j < |rows| && rows[j].eventId == x {
      if x in UsedIds(rows) {
        var r :| r in rows && r.eventId == x;
        var j :| 0 <= j < |rows| && rows[j] == r;
      }
      if j :| 0 <= j < |rows| && rows[j].eventId == x {
        assert rows[j] in rows;
      }
    }
    forall a ensures a in row.agents <==> a in p.agents && AgentLink(p, v.id, a) {
      AgentsOfEvent(p, locations, v, a);
    }
  }

  /** The rows from here on are right. */
  ghost predicate RowsRight(start: nat, here: nat, saved: seq<Row>, p: Premis, u: Uuids) {
    forall i | here <= i < |saved| :: RowRight(start, saved, i, p, u)
  }

  ghost predicate RowsAbout(here: nat, saved: seq<Row>, e: Identifier) {
    forall i | here <= i < |saved| :: saved[i].event == e
  }

  lemma RightBefore(start: nat, rows: seq<Row>, next: seq<Row>, saved: seq<Row>, p: Premis, u: Uuids)
    requires RowsRight(start, |rows|, next, p, u) && next <= saved && RowsRight(start, |next|, saved, p, u)
    ensures RowsRight(start, |rows|, saved, p, u)
  {
    forall i | |rows| <= i < |saved| ensures RowRight(start, saved, i, p, u) {
      if i < |next| {
        RowStays(start, next, saved, i, p, u);
      }
    }
  }

  lemma {:induction false} FileRowsRight(
    start: nat, rows: seq<Row>, v: ValidEvent, eventId: string, todo: seq<Identifier>, p: Premis,
    locations: map<string, nat>, u: Uuids)
    requires AllFilesValid(todo, p, locations) && IsValidEvent(v, p, locations) && Underway(start, rows, v, eventId, p)
    ensures var saved := FilesSaved(rows, v, eventId, todo, p, locations, u);
            rows <= saved && RowsAbout(|rows|, saved, v.id) && RowsRight(start, |rows|, saved, p, u)
    decreases |todo|
  {
    if todo != [] {
      assert ValidFile(p.files, locations, todo[0]);
      var file, id := locations[LocationOf(p.files[todo[0]])], EnsureId(rows, eventId, u);
      var next := rows + [Row(id, v.id, file, v.agents)];
      NextRow(start, rows, v, eventId, file, p, locations, u);
      FileRowsRight(start, next, v, id, todo[1..], p, locations, u);
      var saved := FilesSaved(next, v, id, todo[1..], p, locations, u);
      assert RowsRight(start, |rows|, next, p, u);
      RightBefore(start, rows, next, saved, p, u);
      AboutBefore(rows, next, saved, v.id);
    }
  }

  lemma AboutBefore(rows: seq<Row>, next: seq<Row>, saved: seq<Row>, e: Identifier)
    requires next <= saved && RowsAbout(|rows|, next, e) && RowsAbout(|next|, saved, e)
    ensures RowsAbout(|rows|, saved, e)
  {
    forall i | |rows| <= i < |saved| ensures saved[i].event == e {
      if i < |next| {
        assert saved[i] == next[i];
      }
    }
  }

  /** Every new row has its identifier and its agents. */
  lemma {:induction false} EventRowsRight(
    start: nat, rows: seq<Row>, valid: seq<ValidEvent>, p: Premis, locations: map<string, nat>, u: Uuids)
    requires AllValid(valid, p, locations) && Distinct(EventsOf(valid)) && start <= |rows|
    requires forall j | start <= j < |rows| :: rows[j].event !in EventsOf(valid)
    ensures var saved := EventsSaved(rows, valid, p, locations, u);
            rows <= saved && RowsRight(start, |rows|, saved, p, u)
    decreases |valid|
  {
    if valid != [] {
      var v := valid[0];
      assert IsValidEvent(v, p, locations) && EventsOf(valid) == [v.id] + EventsOf(valid[1..]);
      DistinctHead(EventsOf(valid));
      var next := FilesSaved(rows, v, p.events[v.id].eventId, v.files, p, locations, u);
      FileRowsRight(start, rows, v, p.events[v.id].eventId, v.files, p, locations, u);
      forall j | start <= j < |next| ensures next[j].event !in EventsOf(valid[1..]) {
        if j < |rows| {
          assert next[j] == rows[j];
        }
      }
      EventRowsRight(start, next, valid[1..], p, locations, u);
      RightBefore(start, rows, next, EventsSaved(next, valid[1..], p, locations, u), p, u);
    }
  }

  /** In a well-linked document the agents of a row are exactly those its event is linked with, at least one. */
  lemma RowsHaveAgents(p: Premis, locations: map<string, nat>, saved: seq<Row>, i: nat)
    requires AgentsKept(saved, i, p) && AgentLinksLead(p) && EventLinked(p, locations, saved[i].event)
    ensures saved[i].agents != {} && forall a :: a in saved[i].agents <==> AgentLink(p, saved[i].event, a)
  {
    var a :| AgentLink(p, saved[i].event, a);
    assert a in saved[i].agents;
  }

  /** A successful import keeps what was saved and adds one row for each link between an event and a valid file,
      with this file of the transfer, and no others; all identifiers stay distinct. */
  lemma {:induction false} ImportedRows(
    rows: seq<Row>, valid: seq<ValidEvent>, p: Premis, locations: map<string, nat>, u: Uuids, e: Identifier,
    f: Identifier)
    requires AllValid(valid, p, locations) && Distinct(EventsOf(valid))
    requires forall x :: x in EventsOf(valid) <==> x in p.events
    requires Fresh(u) && IdsDiffer(rows)
    ensures var saved, links := EventsSaved(rows, valid, p, locations, u), EventLinks(valid);
            && rows <= saved && IdsDiffer(saved)
            && RowsHold(|rows|, saved, links, p, locations) && Distinct(links)
            && RowsRight(|rows|, |rows|, saved, p, u)
            && ((e, f) in links <==> e in p.events && FileLink(p, e, f) && InTransfer(p, locations, f))
  {
    EventRowsRight(|rows|, rows, valid, p, locations, u);
    InTransferIsValid(p, locations, f);
    EventsSavedHold(rows, valid, p, locations, u);
    EventIdsDiffer(rows, valid, p, locations, u);
    EventLinksOnce(valid, p, locations);
    EventLinksHold(valid, p, locations, e, f);
  }
}
