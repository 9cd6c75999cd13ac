/** The assembled METS document of an ingest: which references resolve, and the one that may not
    (worker/worker/clientScripts/create_mets_v2.py, main and create_object_metadata). */
module MetsDocument {
  import opened Text
  import opened DirTree
  import opened Mets
  import opened MetsBuilder
  import opened FileReferences
  import opened FileSec

  /** What create_object_metadata finds: embedded transfer metadata files, source metadata files, and
      for every bag the number of tags in its information. */
  datatype ObjectMetadata = ObjectMetadata(transfers: nat, sources: nat, bags: seq<nat>) {
    predicate Absent() {
      transfers == 0 && sources == 0 && bags == []
    }

    /** The number of sourceMD elements: bags without tags add none. */
    function Children(): nat {
      transfers + sources + WithTags(bags)
    }

    /** There are bags, but nothing to say about any of them, and no other metadata. */
    predicate Hollow() {
      transfers == 0 && sources == 0 && bags != [] && forall b | b in bags :: b == 0
    }

    /** The section has children, so main keeps it. */
    predicate Kept() {
      !Absent() && !Hollow()
    }
  }

  function WithTags(bags: seq<nat>): nat {
    if bags == [] then 0 else (if bags[0] > 0 then 1 else 0) + WithTags(bags[1..])
  }

  lemma {:induction false} WithTagsZero(bags: seq<nat>)
    ensures WithTags(bags) == 0 <==> forall b | b in bags :: b == 0
  {
    if bags != [] {
      WithTagsZero(bags[1..]);
      if WithTags(bags) == 0 {
        forall b | b in bags ensures b == 0 {
          assert b == bags[0] || b in bags[1..];
        }
      } else if bags[0] == 0 {
        var b :| b in bags[1..] && b != 0;
        assert b in bags;
      } else {
        assert bags[0] in bags;
      }
    }
  }

  /** objectsAdm is the ADMID of the objects div; dc is the section for the SIP's own Dublin Core record. */
  datatype Document = Document(
    dmdSecs: seq<DmdSec>, dc: Option<DmdSec>, amdSecs: seq<AmdSec>, fileGrps: map<string, seq<FileElem>>,
    structMap: Div,
    objectsAdm: Option<string>)
  {
    function AllDmdSecs(): seq<DmdSec> {
      if dc.Some? then dmdSecs + [dc.value] else dmdSecs
    }
  }

  /** A directory that may not exist. */
  function WalkIfPresent(db: Database, base: string, dir: Option<seq<Node>>, path: string): Option<Walked> {
    match dir
    case None => Some(NOTHING)
    case Some(entries) => Walk(db, base, entries, path)
  }

  function DirDiv(name: string, dir: Option<seq<Node>>, w: Walked): seq<Div> {
    if dir.Some? then [Div(name, true, [], [], w.divs)] else []
  }

  /** The div of a directory that may not exist, with its references, and the sections made for it. */
  function DescribedIfPresent(
    db: Database, base: string, name: string, dir: Option<seq<Node>>, path: string, n: nat): Described
  {
    match dir
    case None => Described([], [])
    case Some(entries) => DescribedDirectory(db, base, name, entries, path, n)
  }

  lemma AmdIdOf(secs: seq<AmdSec>, n: nat)
    requires forall k | 0 <= k < |secs| :: secs[k].number != n
    ensures AmdId(n) !in AmdIds(secs)
  {
    AmdNumbersAt(secs);
    var ids := AmdIds(secs);
    forall k | 0 <= k < |ids| ensures ids[k] != AmdId(n) {
      assert Str(AmdNumbers(secs)[k]) == ids[k][7..] && Str(n) == AmdId(n)[7..];
      if ids[k] == AmdId(n) {
        StrInjective(AmdNumbers(secs)[k], n);
        assert false;
      }
    }
  }

  lemma {:induction false} AmdNumbersAt(secs: seq<AmdSec>)
    ensures |AmdNumbers(secs)| == |secs| && forall k | 0 <= k < |secs| :: AmdNumbers(secs)[k] == secs[k].number
  {
    if secs != [] {
      AmdNumbersAt(secs[..|secs| - 1]);
    }
  }

  /** create_object_metadata, and main's decision whether to keep the section: an element without
      children counts as false there. */
  method AddObjectMetadata(state: MetsState, m: ObjectMetadata) returns (admId: Option<string>)
    requires Valid(state)
    modifies state`amdCounter, state`amdSecs
    ensures Valid(state) && Extends(old(View(state)), View(state), NOTHING)
    ensures View(state)
            == if m.Absent() then old(View(state)) else WithEmptySection(old(View(state)), m.Children() > 0)
    ensures admId == if m.Absent() then None else Some(AmdId(state.amdCounter))
  {
    if m.Absent() {
      GroupsStay(state.fileGrps);
      return None;
    }
    ghost var doc, counts := View(state), state.Counts();
    EmptySection(doc, counts, m.Children() > 0);
    AppendSection(state, m.Children() > 0);
    admId := Some(AmdId(state.amdCounter));
  }

  method AppendSection(state: MetsState, keep: bool)
    modifies state`amdCounter, state`amdSecs
    ensures View(state) == WithEmptySection(old(View(state)), keep)
    ensures state.Counts() == old(state.Counts()).(amd := old(state.amdCounter) + 1)
  {
    state.amdCounter := state.amdCounter + 1;
    if keep {
      state.amdSecs := state.amdSecs + [AmdSec(state.amdCounter, [], [], [])];
    }
  }

  function WithEmptySection(doc: Doc, keep: bool): Doc {
    doc.(
      amdCounter := doc.amdCounter + 1,
      amdSecs := if keep then doc.amdSecs + [AmdSec(doc.amdCounter + 1, [], [], [])] else doc.amdSecs)
  }

  lemma EmptySection(doc: Doc, c: Counters, keep: bool)
    requires ValidDoc(doc, c)
    ensures ValidDoc(WithEmptySection(doc, keep), c.(amd := c.amd + 1))
    ensures Extends(doc, WithEmptySection(doc, keep), NOTHING)
  {
    EmptySectionValid(doc, c, keep);
    EmptySectionRises(doc.dmdSecs, doc.amdSecs, c);
    GroupsStay(doc.fileGrps);
  }

  lemma EmptySectionValid(doc: Doc, c: Counters, keep: bool)
    requires ValidDoc(doc, c)
    ensures ValidDoc(WithEmptySection(doc, keep), c.(amd := c.amd + 1))
  {
    var now, next := WithEmptySection(doc, keep), c.(amd := c.amd + 1);
    EmptySectionRises(doc.dmdSecs, doc.amdSecs, c);
    assert AllRising(now.dmdSecs, now.amdSecs, next);
    AdmResolvedGrows(doc.fileGrps, AmdIds(doc.amdSecs), AmdId(doc.amdCounter + 1));
    assert AdmResolved(now.fileGrps, AmdIds(now.amdSecs));
  }

  lemma {:induction false} EmptySectionRises(dmdSecs: seq<DmdSec>, secs: seq<AmdSec>, c: Counters)
    requires AllRising(dmdSecs, secs, c)
    ensures AllRising(dmdSecs, secs, c.(amd := c.amd + 1))
    ensures AllRising(dmdSecs, secs + [AmdSec(c.amd + 1, [], [], [])], c.(amd := c.amd + 1))
    ensures AmdIds(secs + [AmdSec(c.amd + 1, [], [], [])]) == AmdIds(secs) + [AmdId(c.amd + 1)]
  {
    AmdStep(secs, AmdSec(c.amd + 1, [], [], []));
    RisingConcat(AmdNumbers(secs), c.amd, [c.amd + 1], c.amd + 1);
    assert TechNumbers(secs) + [] == TechNumbers(secs) && RightsNumbers(secs) + [] == RightsNumbers(secs);
    assert DigiprovNumbers(secs) + [] == DigiprovNumbers(secs);
  }

  lemma AdmResolvedGrows(grps: map<string, seq<FileElem>>, ids: seq<string>, id: string)
    requires AdmResolved(grps, ids)
    ensures AdmResolved(grps, ids + [id])
  {
  }

  /** One of the two directories main walks. */
  method AddDirectory(
    state: MetsState, db: Database, base: string, name: string, dir: Option<seq<Node>>, path: string,
    includeAmdSec: bool)
    returns (r: Option<seq<Div>>)
    requires Valid(state)
    modifies state
    ensures r.Some? <==> WalkIfPresent(db, base, dir, path).Some?
    ensures r.Some? ==>
              && Valid(state) && Extends(old(View(state)), View(state), WalkIfPresent(db, base, dir, path).value)
              && BareDivs(r.value) == DirDiv(name, dir, WalkIfPresent(db, base, dir, path).value)
              && Among(DmdRefs(r.value), DmdIds(state.dmdSecs))
              && |r.value| == if dir.Some? then 1 else 0
    ensures r.Some? ==>
              Tracked(
                old(View(state)), old(state.dmdCounter), View(state), state.dmdCounter,
                WalkIfPresent(db, base, dir, path).value.filed,
                DescribedIfPresent(db, base, name, dir, path, old(state.dmdCounter)), r.value, includeAmdSec)
  {
    if dir.None? {
      NothingCollected(View(state), state.dmdCounter, includeAmdSec);
      return Some([]);
    }
    var div := CreateFileSec(state, db, base, name, dir.value, path, includeAmdSec);
    r := if div.None? then None else Some([div.value]);
  }

  /** The unit-level section that main puts on the objects div, or on the package div of an AIC. */
  method AddDublinCore(state: MetsState) returns (dc: DmdSec)
    requires Valid(state)
    modifies state
    ensures dc == DmdSec(old(state.dmdCounter) + 1, DublinCore, [])
    ensures View(state) == old(View(state)) && state.Counts() == old(state.Counts()).(dmd := dc.number)
  {
    state.dmdCounter := state.dmdCounter + 1;
    dc := DmdSec(state.dmdCounter, DublinCore, []);
  }

  /** What holds of every assembled document: the DMDID and ADMID references of its structural map and
      files name sections of the document, and no counter-made identifier occurs twice. */
  ghost predicate Sound(d: Document) {
    && Among(DmdRefs([d.structMap]), DmdIds(d.AllDmdSecs()))
    && AdmResolved(d.fileGrps, AmdIds(d.amdSecs))
    && Distinct(CounterIds(d.AllDmdSecs(), d.amdSecs))
  }

  /** The objects div refers to a section that is not in the document. */
  predicate Dangling(d: Document) {
    d.objectsAdm.Some? && d.objectsAdm.value !in AmdIds(d.amdSecs)
  }

  /** The ADMID of the objects div against the sections collected so far: it names one of them, or its
      number was handed out and never used. */
  ghost predicate AdmState(doc: Doc, m: ObjectMetadata, admId: Option<string>, number: nat) {
    match admId
    case None => m.Absent()
    case Some(id) =>
      && !m.Absent() && number <= doc.amdCounter && id == AmdId(number)
      && if m.Children() > 0 then id in AmdIds(doc.amdSecs)
         else forall k | 0 <= k < |doc.amdSecs| :: doc.amdSecs[k].number != number
  }

  lemma AdmStateKept(a: Doc, b: Doc, m: ObjectMetadata, admId: Option<string>, number: nat)
    requires AdmState(a, m, admId, number) && AmdsGrow(a, b)
    ensures AdmState(b, m, admId, number)
  {
    assert b.amdSecs == a.amdSecs + b.amdSecs[|a.amdSecs|..];
    AmdIdsConcat(a.amdSecs, b.amdSecs[|a.amdSecs|..]);
    if admId.Some? && m.Children() == 0 {
      forall k | 0 <= k < |b.amdSecs| ensures b.amdSecs[k].number != number {
        if k < |a.amdSecs| {
          assert b.amdSecs[k] == a.amdSecs[k];
        }
      }
    }
  }

  lemma {:induction false} AmdIdsConcat(a: seq<AmdSec>, b: seq<AmdSec>)
    ensures AmdIds(a + b) == AmdIds(a) + AmdIds(b)
  {
    if b == [] {
      assert a + b == a;
    } else {
      var rest, last := b[..|b| - 1], b[|b| - 1];
      assert a + b == (a + rest) + [last] && b == rest + [last];
      AmdIdsConcat(a, rest);
      AmdStep(a + rest, last);
      AmdStep(rest, last);
      SeqAssoc(AmdIds(a), AmdIds(rest), [AmdId(last.number)]);
    }
  }

  /** The reference dangles exactly when the object metadata is hollow. */
  lemma DanglingExactly(doc: Doc, m: ObjectMetadata, admId: Option<string>, number: nat)
    requires AdmState(doc, m, admId, number)
    ensures admId.Some? && admId.value !in AmdIds(doc.amdSecs) <==> m.Hollow()
  {
    WithTagsZero(m.bags);
    if admId.Some? && m.Children() == 0 {
      AmdIdOf(doc.amdSecs, number);
    }
  }

  lemma FreshNumber(doc: Doc, c: Counters, m: ObjectMetadata, after: Doc)
    requires AllRising(doc.dmdSecs, doc.amdSecs, c) && c.amd == doc.amdCounter && !m.Absent()
    requires after.amdCounter == doc.amdCounter + 1
    requires if m.Children() > 0 then after.amdSecs == doc.amdSecs + [AmdSec(after.amdCounter, [], [], [])]
             else after.amdSecs == doc.amdSecs
    ensures AdmState(after, m, Some(AmdId(after.amdCounter)), after.amdCounter)
  {
    if m.Children() > 0 {
      AmdStep(doc.amdSecs, AmdSec(after.amdCounter, [], [], []));
    } else {
      AmdNumbersAt(doc.amdSecs);
      forall k | 0 <= k < |doc.amdSecs| ensures doc.amdSecs[k].number != after.amdCounter {
        assert AmdNumbers(doc.amdSecs)[k] <= c.amd;
      }
    }
  }

  /** What the walks add to the state, with the divs they made. */
  ghost predicate Grown(before: Doc, now: Doc, w: Walked, divs: seq<Div>, bare: seq<Div>) {
    && Extends(before, now, w) && BareDivs(divs) == bare && Among(DmdRefs(divs), DmdIds(now.dmdSecs))
  }

  function PackageSecs(sipRecord: bool, n: nat): seq<DmdSec> {
    if sipRecord then [DmdSec(n + 1, PremisObject, [])] else []
  }

  /** What the record of the package itself added. */
  ghost predicate PackageAdded(sipRecord: bool, before: Doc, n: nat, now: Doc, n': nat, ids: seq<string>) {
    && Extends(before, now, NOTHING) && now == before.(dmdSecs := now.dmdSecs)
    && Made(before.dmdSecs, n, now.dmdSecs, n', PackageSecs(sipRecord, n)) && ids == DmdIds(PackageSecs(sipRecord, n))
    && Among(ids, DmdIds(now.dmdSecs))
  }

  /** The section of the package itself. */
  method AddPackage(state: MetsState, sipRecord: bool) returns (ids: seq<string>)
    requires Valid(state)
    modifies state`dmdCounter, state`dmdSecs
    ensures Valid(state)
    ensures PackageAdded(sipRecord, old(View(state)), old(state.dmdCounter), View(state), state.dmdCounter, ids)
  {
    ids := [];
    ghost var before, counters := View(state), state.Counts();
    if sipRecord {
      var id := state.NewDmdSec(PremisObject);
      ghost var own := [DmdSec(state.dmdCounter, PremisObject, [])];
      DmdIdsGrow(before.dmdSecs, own);
      assert own[..0] == [];
      ids := [id];
    } else {
      assert state.dmdSecs + [] == state.dmdSecs;
    }
    DmdSecsAdded(before, counters, View(state), state.Counts());
  }

  lemma KeptExactly(m: ObjectMetadata)
    ensures m.Kept() <==> m.Children() > 0
  {
    WithTagsZero(m.bags);
  }

  /** The section of the object metadata, if main keeps it. */
  function KeptSec(m: ObjectMetadata, number: nat): seq<AmdSec> {
    if m.Kept() then [AmdSec(number, [], [], [])] else []
  }

  function WithKept(doc: Doc, m: ObjectMetadata, number: nat, counter: nat): Doc {
    doc.(amdSecs := doc.amdSecs + KeptSec(m, number), amdCounter := counter)
  }

  method AttachObjectMetadata(state: MetsState, m: ObjectMetadata) returns (admId: Option<string>, ghost number: nat)
    requires Valid(state)
    modifies state`amdCounter, state`amdSecs
    ensures Valid(state) && Extends(old(View(state)), View(state), NOTHING)
    ensures AdmState(View(state), m, admId, number)
    ensures View(state) == WithKept(old(View(state)), m, number, state.amdCounter)
    ensures state.dmdCounter == old(state.dmdCounter)
  {
    ghost var before, counters := View(state), state.Counts();
    admId := AddObjectMetadata(state, m);
    number := state.amdCounter;
    Attached(before, counters, m, View(state), admId);
  }

  lemma Attached(a: Doc, c: Counters, m: ObjectMetadata, b: Doc, admId: Option<string>)
    requires ValidDoc(a, c)
    requires b == if m.Absent() then a else WithEmptySection(a, m.Children() > 0)
    requires admId == if m.Absent() then None else Some(AmdId(b.amdCounter))
    ensures AdmState(b, m, admId, b.amdCounter) && b == WithKept(a, m, b.amdCounter, b.amdCounter)
  {
    KeptExactly(m);
    KeptOrNot(a.amdSecs, b.amdSecs, m, b.amdCounter);
    if admId.Some? {
      FreshNumber(a, c, m, b);
    }
  }

  lemma KeptOrNot(before: seq<AmdSec>, after: seq<AmdSec>, m: ObjectMetadata, number: nat)
    requires after == if m.Children() > 0 then before + [AmdSec(number, [], [], [])] else before
    ensures after == before + KeptSec(m, number)
  {
    KeptExactly(m);
  }

  /** The objects directory and the object metadata; walked are the sections of the files. */
  method AddObjects(
    state: MetsState, db: Database, base: string, objects: Option<seq<Node>>, m: ObjectMetadata, includeAmdSec: bool)
    returns (r: Option<seq<Div>>, admId: Option<string>, ghost number: nat, ghost walked: Doc)
    requires Valid(state)
    modifies state
    ensures r.Some? <==> WalkIfPresent(db, base, objects, base + "objects").Some? && (objects.Some? || m.Absent())
    ensures r.Some? ==>
              && Valid(state) && |r.value| == (if objects.Some? then 1 else 0)
              && ObjectsAdded(
                   db, base, objects, m, includeAmdSec, old(View(state)), old(state.dmdCounter), walked, View(state),
                   state.dmdCounter, r.value, admId, number)
  {
    admId, number := None, 0;
    r := AddDirectory(state, db, base, "objects", objects, base + "objects", includeAmdSec);
    walked := View(state);
    if r.None? {
      return;
    }
    if objects.None? && !m.Absent() {
      r := None;
      return;
    }
    admId, number := AttachObjectMetadata(state, m);
    ExtendsBoth(old(View(state)), walked, View(state), WalkIfPresent(db, base, objects, base + "objects").value);
  }

  lemma ExtendsBoth(a: Doc, b: Doc, c: Doc, w: Walked)
    requires Extends(a, b, w) && Extends(b, c, NOTHING)
    ensures Extends(a, c, w)
  {
    ExtendsTwice(a, b, c, w, NOTHING);
    assert w.filed + [] == w.filed;
  }

  /** What main has collected before it puts the structural map together. */
  datatype Parts = Parts(ids: seq<string>, objects: seq<Div>, metadata: seq<Div>, admId: Option<string>)

  /** The references of the collected divs name sections collected. */
  ghost predicate Resolved(doc: Doc, p: Parts) {
    && Among(p.ids, DmdIds(doc.dmdSecs)) && Among(DmdRefs(p.objects), DmdIds(doc.dmdSecs))
    && Among(DmdRefs(p.metadata), DmdIds(doc.dmdSecs))
  }

  /** The walks of both directories and the references of what they made. */
  ghost predicate Joined(begun: Doc, now: Doc, w: Walked, v: Walked, m: ObjectMetadata, p: Parts) {
    && GroupsGrow(begun.fileGrps, now.fileGrps, w.filed + v.filed)
    && now.errorCount == begun.errorCount + w.errors + v.errors
    && (p.admId.Some? && p.admId.value !in AmdIds(now.amdSecs) <==> m.Hollow())
    && Resolved(now, p)
  }

  /** The sections of the package, of the objects directory and of the metadata directory, in this order, each
      referred to where it belongs; n, n1 and n2 are the counter before each of them. */
  predicate PlacedAt(
    db: Database, base: string, sipRecord: bool, objects: Option<seq<Node>>, metadata: Option<seq<Node>>,
    before: seq<DmdSec>, n: nat, n1: nat, n2: nat, after: seq<DmdSec>, p: Parts)
  {
    var own := PackageSecs(sipRecord, n);
    var o := DescribedIfPresent(db, base, "objects", objects, base + "objects", n1);
    var e := DescribedIfPresent(db, base, "metadata", metadata, base + "metadata", n2);
    && n1 == n + |own| && n2 == n + |own| + |o.secs|
    && after == before + own + o.secs + e.secs
    && p.ids == DmdIds(own) && p.objects == o.divs && p.metadata == e.divs
  }

  ghost predicate InPlace(
    db: Database, base: string, sipRecord: bool, objects: Option<seq<Node>>, metadata: Option<seq<Node>>,
    before: seq<DmdSec>, n: nat, after: seq<DmdSec>, p: Parts)
  {
    exists n1, n2 :: PlacedAt(db, base, sipRecord, objects, metadata, before, n, n1, n2, after, p)
  }

  /** The reference of the objects div, if its section was kept. */
  function KeptRef(m: ObjectMetadata, admId: Option<string>): multiset<Option<string>> {
    if m.Kept() then multiset{admId} else multiset{}
  }

  /** The sections are those of the first files, the one kept for the objects div, and those of the other files, each
      with what the record of its file says. */
  predicate OwnedAround(
    i: seq<Filed>, j: seq<Filed>, m: ObjectMetadata, secs: seq<AmdSec>, grps: map<string, seq<FileElem>>)
  {
    var kept := if m.Kept() then 1 else 0;
    && |secs| == |i| + kept + |j|
    && Owned(i, secs[..|i|], grps) && Owned(j, secs[|i| + kept..], grps)
  }

  /** Files were added. With administrative sections each refers to a section of its own, and besides these
      sections there is only that of the objects div; without, none has a reference. */
  ghost predicate AllReferred(
    grps: map<string, seq<FileElem>>, secs: seq<AmdSec>, grps': map<string, seq<FileElem>>, secs': seq<AmdSec>,
    i: seq<Filed>, j: seq<Filed>, m: ObjectMetadata, admId: Option<string>, includeAmdSec: bool)
  {
    && secs <= secs'
    && if includeAmdSec then
         && OwnedAround(i, j, m, secs'[|secs|..], grps')
         && AllAdms(grps') + KeptRef(m, admId) == AllAdms(grps) + Refs(secs'[|secs|..])
       else
         NoMoreRefs(AllAdms(grps), AllAdms(grps')) && Refs(secs'[|secs|..]) == KeptRef(m, admId)
  }

  lemma KeptRefs(m: ObjectMetadata, number: nat, admId: Option<string>)
    requires m.Kept() ==> admId == Some(AmdId(number))
    ensures Refs(KeptSec(m, number)) == KeptRef(m, admId)
  {
    if m.Kept() {
      assert KeptSec(m, number)[..0] == [];
    }
  }

  /** The sections added: those of the first files, the one kept, and those of the other files. */
  lemma SectionsAdded(r: seq<AmdSec>, s: seq<AmdSec>, kept: seq<AmdSec>, t: seq<AmdSec>)
    requires r <= s && s + kept <= t
    ensures r <= t && Refs(t[|r|..]) == Refs(s[|r|..]) + Refs(kept) + Refs(t[|s + kept|..])
  {
    assert t[|r|..] == s[|r|..] + (kept + t[|s + kept|..]);
    RefsConcat(s[|r|..], kept + t[|s + kept|..]);
    RefsConcat(kept, t[|s + kept|..]);
  }

  lemma KeptReferred(
    a: map<string, seq<FileElem>>, r: seq<AmdSec>, b: map<string, seq<FileElem>>, s: seq<AmdSec>,
    b': map<string, seq<FileElem>>, s': seq<AmdSec>, c: map<string, seq<FileElem>>, t: seq<AmdSec>, i: seq<Filed>,
    j: seq<Filed>, m: ObjectMetadata, number: nat, admId: Option<string>, includeAmdSec: bool)
    requires Referring(a, r, b, s, i, includeAmdSec) && Referring(b', s', c, t, j, includeAmdSec)
    requires b' == b && s' == s + KeptSec(m, number)
    requires m.Kept() ==> admId == Some(AmdId(number))
    ensures AllReferred(a, r, c, t, i, j, m, admId, includeAmdSec)
  {
    var kept := KeptSec(m, number);
    SectionsAdded(r, s, kept, t);
    KeptRefs(m, number, admId);
    if includeAmdSec {
      KeptBetween(i, j, m, number, r, s, t, b, c);
      Tally(AllAdms(a), AllAdms(b), AllAdms(c), Refs(s[|r|..]), KeptRef(m, admId), Refs(t[|s'|..]));
    } else {
      assert t[|s + kept|..] == [] && s[|r|..] == [];
    }
  }

  lemma KeptBetween(
    i: seq<Filed>, j: seq<Filed>, m: ObjectMetadata, number: nat, r: seq<AmdSec>, s: seq<AmdSec>, t: seq<AmdSec>,
    b: map<string, seq<FileElem>>, c: map<string, seq<FileElem>>)
    requires r <= s && s + KeptSec(m, number) <= t && Continued(b, c)
    requires Owned(i, s[|r|..], b) && Owned(j, t[|s + KeptSec(m, number)|..], c)
    ensures OwnedAround(i, j, m, t[|r|..], c)
  {
    var kept, secs := KeptSec(m, number), t[|r|..];
    assert secs[..|i|] == s[|r|..] && secs[|i| + |kept|..] == t[|s + kept|..];
    forall k | 0 <= k < |i| ensures Own(i[k], secs[..|i|][k], c) {
      OwnContinued(i[k], s[|r|..][k], b, c);
    }
  }

  lemma Tally<T>(
    a: multiset<T>, b: multiset<T>, c: multiset<T>, first: multiset<T>, kept: multiset<T>, second: multiset<T>)
    requires b == a + first && c == b + second
    ensures c + kept == a + (first + kept + second)
  {
  }

  lemma PartsInPlace(
    db: Database, base: string, sipRecord: bool, objects: Option<seq<Node>>, metadata: Option<seq<Node>>,
    a: seq<DmdSec>, n: nat, b: seq<DmdSec>, n1: nat, c: seq<DmdSec>, n2: nat, d: seq<DmdSec>, n3: nat, p: Parts)
    requires Made(a, n, b, n1, PackageSecs(sipRecord, n)) && p.ids == DmdIds(PackageSecs(sipRecord, n))
    requires var o := DescribedIfPresent(db, base, "objects", objects, base + "objects", n1);
             Made(b, n1, c, n2, o.secs) && p.objects == o.divs
    requires var e := DescribedIfPresent(db, base, "metadata", metadata, base + "metadata", n2);
             Made(c, n2, d, n3, e.secs) && p.metadata == e.divs
    ensures InPlace(db, base, sipRecord, objects, metadata, a, n, d, p)
  {
    var o := DescribedIfPresent(db, base, "objects", objects, base + "objects", n1);
    var e := DescribedIfPresent(db, base, "metadata", metadata, base + "metadata", n2);
    InOrder(a, n, b, n1, c, n2, d, n3, PackageSecs(sipRecord, n), o.secs, e.secs);
    assert PlacedAt(db, base, sipRecord, objects, metadata, a, n, n1, n2, d, p);
  }

  lemma InOrder(
    a: seq<DmdSec>, n: nat, b: seq<DmdSec>, n1: nat, c: seq<DmdSec>, n2: nat, d: seq<DmdSec>, n3: nat,
    x: seq<DmdSec>, y: seq<DmdSec>, z: seq<DmdSec>)
    requires Made(a, n, b, n1, x) && Made(b, n1, c, n2, y) && Made(c, n2, d, n3, z)
    ensures d == a + x + y + z && n1 == n + |x| && n2 == n + |x| + |y|
  {
  }

  /** All that holds of what main has collected: the walks, the references, and the sections in their places. */
  ghost predicate Collects(
    db: Database, base: string, sipRecord: bool, objects: Option<seq<Node>>, metadata: Option<seq<Node>>,
    m: ObjectMetadata, includeAmdSec: bool, before: Doc, n: nat, now: Doc, p: Parts)
  {
    && WalkIfPresent(db, base, objects, base + "objects").Some?
    && WalkIfPresent(db, base, metadata, base + "metadata").Some?
    && var w := WalkIfPresent(db, base, objects, base + "objects").value;
       var v := WalkIfPresent(db, base, metadata, base + "metadata").value;
       && Joined(before, now, w, v, m, p)
       && BareDivs(p.objects) == DirDiv("objects", objects, w)
       && BareDivs(p.metadata) == DirDiv("metadata", metadata, v)
       && AllReferred(
            before.fileGrps, before.amdSecs, now.fileGrps, now.amdSecs, w.filed, v.filed, m, p.admId, includeAmdSec)
       && InPlace(db, base, sipRecord, objects, metadata, before.dmdSecs, n, now.dmdSecs, p)
  }

  /** What the objects directory and the object metadata added; walked is the document in between. */
  ghost predicate ObjectsAdded(
    db: Database, base: string, objects: Option<seq<Node>>, m: ObjectMetadata, includeAmdSec: bool, before: Doc,
    n: nat, walked: Doc, now: Doc, n': nat, divs: seq<Div>, admId: Option<string>, number: nat)
  {
    && WalkIfPresent(db, base, objects, base + "objects").Some?
    && var w := WalkIfPresent(db, base, objects, base + "objects").value;
       && Grown(before, now, w, divs, DirDiv("objects", objects, w))
       && AdmState(now, m, admId, number)
       && Tracked(
            before, n, walked, n', w.filed, DescribedIfPresent(db, base, "objects", objects, base + "objects", n),
            divs, includeAmdSec)
       && now == WithKept(walked, m, number, now.amdCounter)
  }

  ghost predicate MetadataAdded(
    db: Database, base: string, metadata: Option<seq<Node>>, includeAmdSec: bool, before: Doc, n: nat, now: Doc,
    n': nat, divs: seq<Div>)
  {
    && WalkIfPresent(db, base, metadata, base + "metadata").Some?
    && var v := WalkIfPresent(db, base, metadata, base + "metadata").value;
       && Grown(before, now, v, divs, DirDiv("metadata", metadata, v))
       && Tracked(
            before, n, now, n', v.filed,
            DescribedIfPresent(db, base, "metadata", metadata, base + "metadata", n), divs, includeAmdSec)
  }

  lemma PartsCollected(
    db: Database, base: string, sipRecord: bool, objects: Option<seq<Node>>, metadata: Option<seq<Node>>,
    m: ObjectMetadata, includeAmdSec: bool, a: Doc, n: nat, b: Doc, n1: nat, walked: Doc, c: Doc, n2: nat, d: Doc,
    n3: nat, number: nat, p: Parts)
    requires PackageAdded(sipRecord, a, n, b, n1, p.ids)
    requires ObjectsAdded(db, base, objects, m, includeAmdSec, b, n1, walked, c, n2, p.objects, p.admId, number)
    requires MetadataAdded(db, base, metadata, includeAmdSec, c, n2, d, n3, p.metadata)
    ensures Collects(db, base, sipRecord, objects, metadata, m, includeAmdSec, a, n, d, p)
  {
    PartsJoined(db, base, sipRecord, objects, metadata, m, includeAmdSec, a, n, b, n1, walked, c, n2, d, n3, number, p);
    AllPartsReferred(
      db, base, sipRecord, objects, metadata, m, includeAmdSec, a, n, b, n1, walked, c, n2, d, n3, number, p);
    PartsInPlace(
      db, base, sipRecord, objects, metadata, a.dmdSecs, n, b.dmdSecs, n1, c.dmdSecs, n2, d.dmdSecs, n3, p);
  }

  lemma AllPartsReferred(
    db: Database, base: string, sipRecord: bool, objects: Option<seq<Node>>, metadata: Option<seq<Node>>,
    m: ObjectMetadata, includeAmdSec: bool, a: Doc, n: nat, b: Doc, n1: nat, walked: Doc, c: Doc, n2: nat, d: Doc,
    n3: nat, number: nat, p: Parts)
    requires PackageAdded(sipRecord, a, n, b, n1, p.ids)
    requires ObjectsAdded(db, base, objects, m, includeAmdSec, b, n1, walked, c, n2, p.objects, p.admId, number)
    requires MetadataAdded(db, base, metadata, includeAmdSec, c, n2, d, n3, p.metadata)
    ensures AllReferred(
              a.fileGrps, a.amdSecs, d.fileGrps, d.amdSecs,
              WalkIfPresent(db, base, objects, base + "objects").value.filed,
              WalkIfPresent(db, base, metadata, base + "metadata").value.filed, m, p.admId, includeAmdSec)
  {
    var w := WalkIfPresent(db, base, objects, base + "objects").value;
    var v := WalkIfPresent(db, base, metadata, base + "metadata").value;
    AdmNumbered(c, m, p.admId, number);
    PartsReferred(a, b, walked, c, d, w.filed, v.filed, m, number, p.admId, includeAmdSec);
  }

  lemma AdmNumbered(doc: Doc, m: ObjectMetadata, admId: Option<string>, number: nat)
    requires AdmState(doc, m, admId, number)
    ensures m.Kept() ==> admId == Some(AmdId(number))
  {
  }

  lemma PartsJoined(
    db: Database, base: string, sipRecord: bool, objects: Option<seq<Node>>, metadata: Option<seq<Node>>,
    m: ObjectMetadata, includeAmdSec: bool, a: Doc, n: nat, b: Doc, n1: nat, walked: Doc, c: Doc, n2: nat, d: Doc,
    n3: nat, number: nat, p: Parts)
    requires PackageAdded(sipRecord, a, n, b, n1, p.ids)
    requires ObjectsAdded(db, base, objects, m, includeAmdSec, b, n1, walked, c, n2, p.objects, p.admId, number)
    requires MetadataAdded(db, base, metadata, includeAmdSec, c, n2, d, n3, p.metadata)
    ensures Joined(
              a, d, WalkIfPresent(db, base, objects, base + "objects").value,
              WalkIfPresent(db, base, metadata, base + "metadata").value, m, p)
  {
    var w := WalkIfPresent(db, base, objects, base + "objects").value;
    var v := WalkIfPresent(db, base, metadata, base + "metadata").value;
    Together(a, b, c, d, w, v, m, number, p);
  }

  lemma PartsReferred(
    a: Doc, b: Doc, walked: Doc, c: Doc, d: Doc, i: seq<Filed>, j: seq<Filed>, m: ObjectMetadata, number: nat,
    admId: Option<string>, includeAmdSec: bool)
    requires b == a.(dmdSecs := b.dmdSecs) && c == WithKept(walked, m, number, c.amdCounter)
    requires Referring(b.fileGrps, b.amdSecs, walked.fileGrps, walked.amdSecs, i, includeAmdSec)
    requires Referring(c.fileGrps, c.amdSecs, d.fileGrps, d.amdSecs, j, includeAmdSec)
    requires m.Kept() ==> admId == Some(AmdId(number))
    ensures AllReferred(a.fileGrps, a.amdSecs, d.fileGrps, d.amdSecs, i, j, m, admId, includeAmdSec)
  {
    KeptReferred(
      b.fileGrps, b.amdSecs, walked.fileGrps, walked.amdSecs, c.fileGrps, c.amdSecs, d.fileGrps, d.amdSecs, i, j, m,
      number, admId, includeAmdSec);
  }

  /** The input on which main does not raise. */
  predicate Gathers(
    db: Database, base: string, objects: Option<seq<Node>>, metadata: Option<seq<Node>>, m: ObjectMetadata)
  {
    && WalkIfPresent(db, base, objects, base + "objects").Some? && (objects.Some? || m.Absent())
    && WalkIfPresent(db, base, metadata, base + "metadata").Some?
  }

  /** The package, both walks and the object metadata; None where the script raises. */
  method AddParts(
    state: MetsState, db: Database, base: string, sipRecord: bool, objects: Option<seq<Node>>,
    metadata: Option<seq<Node>>, m: ObjectMetadata, includeAmdSec: bool)
    returns (r: Option<Parts>)
    requires Valid(state)
    modifies state
    ensures r.Some? <==> Gathers(db, base, objects, metadata, m)
    ensures r.Some? ==>
              && Valid(state)
              && Collects(
                   db, base, sipRecord, objects, metadata, m, includeAmdSec, old(View(state)), old(state.dmdCounter),
                   View(state), r.value)
  {
    ghost var a, n := View(state), state.dmdCounter;
    var ids := AddPackage(state, sipRecord);
    ghost var b, n1 := View(state), state.dmdCounter;
    var objectDivs, admId;
    ghost var number, walked;
    objectDivs, admId, number, walked := AddObjects(state, db, base, objects, m, includeAmdSec);
    if objectDivs.None? {
      return None;
    }
    ghost var c, n2 := View(state), state.dmdCounter;
    var metadataDivs := AddDirectory(state, db, base, "metadata", metadata, base + "metadata", includeAmdSec);
    if metadataDivs.None? {
      return None;
    }
    r := Some(Parts(ids, objectDivs.value, metadataDivs.value, admId));
    PartsCollected(
      db, base, sipRecord, objects, metadata, m, includeAmdSec, a, n, b, n1, walked, c, n2, View(state),
      state.dmdCounter, number, r.value);
  }

  /** The parts of a document are those collected. */
  ghost predicate BuiltFrom(d: Document, doc: Doc, sipName: string, p: Parts) {
    d == Document(
           doc.dmdSecs, d.dc, doc.amdSecs, doc.fileGrps, StructMap(sipName, p.ids, p.objects, p.metadata, d.dc),
           p.admId)
  }

  /** The finished document: its references resolve but for that of hollow object metadata, and its divs are those
      of both directories. */
  ghost predicate Finished(d: Document, doc: Doc, sipName: string, p: Parts) {
    && Sound(d)
    && BuiltFrom(d, doc, sipName, p)
    && BareDivs([d.structMap]) == [Div(sipName, true, [], [], BareDivs(p.objects) + BareDivs(p.metadata))]
  }

  /** A document made of what the walks collected. */
  ghost predicate Complete(
    db: Database, base: string, sipName: string, sipRecord: bool, objects: Option<seq<Node>>,
    metadata: Option<seq<Node>>, m: ObjectMetadata, includeAmdSec: bool, before: Doc, n: nat, now: Doc, d: Document,
    p: Parts)
  {
    && Collects(db, base, sipRecord, objects, metadata, m, includeAmdSec, before, n, now, p)
    && Finished(d, now, sipName, p)
    && (Dangling(d) <==> m.Hollow())
  }

  /** The end of main: the Dublin Core section and the structural map. */
  method Finish(state: MetsState, sipName: string, dcRecord: bool, p: Parts) returns (d: Document)
    requires Valid(state) && Resolved(View(state), p)
    modifies state
    ensures View(state) == old(View(state)) && Finished(d, View(state), sipName, p)
    ensures d.dc.Some? <==> dcRecord
  {
    ghost var doc, counters := View(state), state.Counts();
    var dc := None;
    if dcRecord {
      var sec := AddDublinCore(state);
      dc := Some(sec);
    }
    var structMap := StructMap(sipName, p.ids, p.objects, p.metadata, dc);
    d := Document(state.dmdSecs, dc, state.amdSecs, state.fileGrps, structMap, p.admId);
    Whole(d, doc, counters, sipName, p);
  }

  lemma Whole(d: Document, doc: Doc, c: Counters, sipName: string, p: Parts)
    requires BuiltFrom(d, doc, sipName, p) && Resolved(doc, p)
    requires ValidDoc(doc, c) && (d.dc.Some? ==> d.dc.value.number == c.dmd + 1)
    ensures Finished(d, doc, sipName, p)
  {
    StructMapMirrors(sipName, p.ids, p.objects, p.metadata, d.dc);
    Assembled(d, doc, c, p.ids, p.objects, p.metadata);
  }

  /** main, up to the point where the document is handed to metsrw; None where the script raises. The parts are
      those collected, and the Dublin Core section, if any, goes where StructMap puts it. */
  method BuildDocument(
    state: MetsState, db: Database, base: string, sipName: string, sipRecord: bool, objects: Option<seq<Node>>,
    metadata: Option<seq<Node>>, m: ObjectMetadata, dcRecord: bool, includeAmdSec: bool)
    returns (r: Option<Document>, ghost p: Parts)
    requires Valid(state)
    modifies state
    ensures r.Some? <==> Gathers(db, base, objects, metadata, m)
    ensures r.Some? ==>
              Complete(
                db, base, sipName, sipRecord, objects, metadata, m, includeAmdSec, old(View(state)),
                old(state.dmdCounter), View(state), r.value, p)
    ensures r.Some? ==> (r.value.dc.Some? <==> dcRecord)
  {
    var parts := AddParts(state, db, base, sipRecord, objects, metadata, m, includeAmdSec);
    if parts.None? {
      return None, Parts([], [], [], None);
    }
    p := parts.value;
    var d := Finish(state, sipName, dcRecord, parts.value);
    r := Some(d);
  }

  /** The structural map: the Dublin Core section replaces the DMDID of the objects div, or of the
      package div when there is no objects directory. */
  function StructMap(
    sipName: string, ids: seq<string>, objects: seq<Div>, metadata: seq<Div>, dc: Option<DmdSec>): Div
  {
    if dc.None? then Div(sipName, true, ids, [], objects + metadata)
    else if objects == [] then Div(sipName, true, [DmdId(dc.value.number)], [], metadata)
    else Div(sipName, true, ids, [], [objects[0].(dmdIds := [DmdId(dc.value.number)])] + objects[1..] + metadata)
  }

  lemma StructMapMirrors(sipName: string, ids: seq<string>, objects: seq<Div>, metadata: seq<Div>, dc: Option<DmdSec>)
    ensures BareDivs([StructMap(sipName, ids, objects, metadata, dc)])
            == [Div(sipName, true, [], [], BareDivs(objects) + BareDivs(metadata))]
    ensures forall id | id in DmdRefs([StructMap(sipName, ids, objects, metadata, dc)]) ::
              id in ids || id in DmdRefs(objects) || id in DmdRefs(metadata)
                || (dc.Some? && id == DmdId(dc.value.number))
  {
    var structMap := StructMap(sipName, ids, objects, metadata, dc);
    OneDiv(structMap);
    DivsConcat(objects, metadata);
    if dc.Some? && objects != [] {
      var described := objects[0].(dmdIds := [DmdId(dc.value.number)]);
      OneDiv(objects[0]);
      OneDiv(described);
      assert objects == [objects[0]] + objects[1..];
      DivsConcat([objects[0]], objects[1..]);
      DivsConcat([described], objects[1..]);
      DivsConcat([described] + objects[1..], metadata);
    } else if dc.Some? {
      assert objects + metadata == metadata;
    }
  }

  lemma {:induction false} Together(
    begun: Doc, doc1: Doc, doc2: Doc, doc3: Doc, w: Walked, v: Walked, m: ObjectMetadata, number: nat, p: Parts)
    requires Extends(begun, doc1, NOTHING) && Extends(doc1, doc2, w) && Extends(doc2, doc3, v)
    requires AdmState(doc2, m, p.admId, number)
    requires Among(p.ids, DmdIds(doc1.dmdSecs)) && Among(DmdRefs(p.objects), DmdIds(doc2.dmdSecs))
    requires Among(DmdRefs(p.metadata), DmdIds(doc3.dmdSecs))
    ensures Joined(begun, doc3, w, v, m, p)
  {
    ExtendsThen(begun, doc1, doc2, w);
    ExtendsTwice(begun, doc2, doc3, w, v);
    AdmStateKept(doc2, doc3, m, p.admId, number);
    DanglingExactly(doc3, m, p.admId, number);
    DmdIdsKept(doc1.dmdSecs, doc2.dmdSecs);
    DmdIdsKept(doc2.dmdSecs, doc3.dmdSecs);
  }

  lemma {:induction false} Assembled(
    d: Document, doc: Doc, c: Counters, ids: seq<string>, objects: seq<Div>, metadata: seq<Div>)
    requires ValidDoc(doc, c) && d.dmdSecs == doc.dmdSecs && d.amdSecs == doc.amdSecs && d.fileGrps == doc.fileGrps
    requires d.dc.Some? ==> d.dc.value.number == c.dmd + 1
    requires Among(ids, DmdIds(doc.dmdSecs))
    requires Among(DmdRefs(objects), DmdIds(doc.dmdSecs)) && Among(DmdRefs(metadata), DmdIds(doc.dmdSecs))
    requires forall id | id in DmdRefs([d.structMap]) ::
               id in ids || id in DmdRefs(objects) || id in DmdRefs(metadata)
                 || (d.dc.Some? && id == DmdId(d.dc.value.number))
    ensures Sound(d)
  {
    if d.dc.Some? {
      DmdIdsGrow(doc.dmdSecs, [d.dc.value]);
      DmdNumbersConcat(doc.dmdSecs, [d.dc.value]);
      assert DmdIds([d.dc.value]) == [DmdId(d.dc.value.number)];
      RisingConcat(DmdNumbers(doc.dmdSecs), c.dmd, [c.dmd + 1], c.dmd + 1);
      CounterIdsDistinct(d.AllDmdSecs(), d.amdSecs, c.(dmd := c.dmd + 1));
    } else {
      CounterIdsDistinct(d.AllDmdSecs(), d.amdSecs, c);
    }
  }
}
