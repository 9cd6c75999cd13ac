/** createFileSec: the recursive walk that fills the file section and the structural map
    (worker/worker/clientScripts/create_mets_v2.py). */
module FileSec {
  import opened Text
  import opened DirTree
  import opened Mets
  import opened MetsBuilder
  import opened FileReferences

  /** The parts of the state that end up in the document. */
  datatype Doc = Doc(
    dmdSecs: seq<DmdSec>, amdSecs: seq<AmdSec>, amdCounter: nat, fileGrps: map<string, seq<FileElem>>, errorCount: nat)

  ghost function View(state: MetsState): Doc
    reads state
  {
    Doc(state.dmdSecs, state.amdSecs, state.amdCounter, state.fileGrps, state.errorCount)
  }

  /** The file elements of one group, leaving their ADMID aside. */
  function Bare(files: seq<FileElem>): seq<FileElem> {
    if files == [] then [] else Bare(files[..|files| - 1]) + [files[|files| - 1].(admId := None)]
  }

  function OfUse(filed: seq<Filed>, use: string): seq<FileElem> {
    if filed == [] then []
    else if filed[0].use == use then [filed[0].file] + OfUse(filed[1..], use)
    else OfUse(filed[1..], use)
  }

  lemma {:induction false} OfUseConcat(a: seq<Filed>, b: seq<Filed>, use: string)
    ensures OfUse(a + b, use) == OfUse(a, use) + OfUse(b, use)
  {
    if a == [] {
      assert a + b == b;
    } else {
      assert (a + b)[1..] == a[1..] + b;
      OfUseConcat(a[1..], b, use);
    }
  }

  function BareDivs(divs: seq<Div>): seq<Div> {
    if divs == [] then []
    else [divs[0].(dmdIds := [], children := BareDivs(divs[0].children))] + BareDivs(divs[1..])
  }

  function DmdRefs(divs: seq<Div>): seq<string> {
    if divs == [] then [] else divs[0].dmdIds + DmdRefs(divs[0].children) + DmdRefs(divs[1..])
  }

  lemma DivsConcat(a: seq<Div>, b: seq<Div>)
    ensures BareDivs(a + b) == BareDivs(a) + BareDivs(b)
    ensures DmdRefs(a + b) == DmdRefs(a) + DmdRefs(b)
  {
    BareConcat(a, b);
    RefsOfDivsConcat(a, b);
  }

  lemma {:induction false} BareConcat(a: seq<Div>, b: seq<Div>)
    ensures BareDivs(a + b) == BareDivs(a) + BareDivs(b)
  {
    if a == [] {
      assert a + b == b;
    } else {
      assert (a + b)[1..] == a[1..] + b;
      BareConcat(a[1..], b);
    }
  }

  lemma {:induction false} RefsOfDivsConcat(a: seq<Div>, b: seq<Div>)
    ensures DmdRefs(a + b) == DmdRefs(a) + DmdRefs(b)
  {
    if a == [] {
      assert a + b == b;
    } else {
      assert (a + b)[1..] == a[1..] + b;
      RefsOfDivsConcat(a[1..], b);
      SeqAssoc(a[0].dmdIds + DmdRefs(a[0].children), DmdRefs(a[1..]), DmdRefs(b));
    }
  }

  lemma OneDiv(div: Div)
    ensures BareDivs([div]) == [Div(div.title, div.isDir, [], div.fptrs, BareDivs(div.children))]
    ensures DmdRefs([div]) == div.dmdIds + DmdRefs(div.children)
  {
    assert [div][1..] == [];
  }

  predicate Among(refs: seq<string>, ids: seq<string>) {
    forall id | id in refs :: id in ids
  }

  /** Each group gained exactly the files of its use, in order. */
  ghost predicate GroupsGrow(a: map<string, seq<FileElem>>, b: map<string, seq<FileElem>>, filed: seq<Filed>) {
    && a.Keys == b.Keys
    && forall use | use in a :: Bare(b[use]) == Bare(a[use]) + OfUse(filed, use)
  }

  /** Administrative sections are only added, with numbers not used before. */
  ghost predicate AmdsGrow(a: Doc, b: Doc) {
    && a.amdSecs <= b.amdSecs && a.amdCounter <= b.amdCounter
    && forall k | |a.amdSecs| <= k < |b.amdSecs| :: a.amdCounter < b.amdSecs[k].number
  }

  /** b is a after a walk that found w: metadata sections are only added. */
  ghost predicate Extends(a: Doc, b: Doc, w: Walked) {
    && a.dmdSecs <= b.dmdSecs && AmdsGrow(a, b)
    && b.errorCount == a.errorCount + w.errors
    && GroupsGrow(a.fileGrps, b.fileGrps, w.filed)
  }

  lemma ExtendsTwice(a: Doc, b: Doc, c: Doc, w: Walked, v: Walked)
    requires Extends(a, b, w) && Extends(b, c, v)
    ensures Extends(a, c, Plus(w, v))
  {
    AmdsGrowTwice(a, b, c);
    GroupsGrowTwice(a.fileGrps, b.fileGrps, c.fileGrps, w.filed, v.filed);
  }

  lemma AmdsGrowTwice(a: Doc, b: Doc, c: Doc)
    requires AmdsGrow(a, b) && AmdsGrow(b, c)
    ensures AmdsGrow(a, c)
  {
    forall k | |a.amdSecs| <= k < |c.amdSecs| ensures a.amdCounter < c.amdSecs[k].number {
      if k < |b.amdSecs| {
        assert c.amdSecs[k] == b.amdSecs[k];
      }
    }
  }

  lemma ExtendsThen(a: Doc, b: Doc, c: Doc, w: Walked)
    requires Extends(a, b, NOTHING) && Extends(b, c, w)
    ensures Extends(a, c, w)
  {
    ExtendsTwice(a, b, c, NOTHING, w);
    assert [] + w.filed == w.filed;
  }

  lemma GroupsGrowTwice(
    a: map<string, seq<FileElem>>, b: map<string, seq<FileElem>>, c: map<string, seq<FileElem>>, w: seq<Filed>,
    v: seq<Filed>)
    requires GroupsGrow(a, b, w) && GroupsGrow(b, c, v)
    ensures GroupsGrow(a, c, w + v)
  {
    forall use | use in a ensures Bare(c[use]) == Bare(a[use]) + OfUse(w + v, use) {
      OfUseConcat(w, v, use);
      SeqAssoc(Bare(a[use]), OfUse(w, use), OfUse(v, use));
    }
  }

  lemma DmdIdsKept(a: seq<DmdSec>, b: seq<DmdSec>)
    requires a <= b
    ensures Among(DmdIds(a), DmdIds(b))
  {
    assert b == a + b[|a|..];
    DmdIdsGrow(a, b[|a|..]);
  }

  /** Every ADMID of the file section names a section of the document. */
  predicate AdmResolved(fileGrps: map<string, seq<FileElem>>, amdIds: seq<string>) {
    forall use | use in fileGrps ::
      forall file | file in fileGrps[use] :: file.admId.Some? ==> file.admId.value in amdIds
  }

  predicate HasAllUses(fileGrps: map<string, seq<FileElem>>) {
    forall use | use in USES :: use in fileGrps
  }

  ghost predicate ValidDoc(doc: Doc, counters: Counters) {
    && AllRising(doc.dmdSecs, doc.amdSecs, counters)
    && counters.amd == doc.amdCounter
    && HasAllUses(doc.fileGrps)
    && AdmResolved(doc.fileGrps, AmdIds(doc.amdSecs))
  }

  ghost predicate Valid(state: MetsState)
    reads state
  {
    ValidDoc(View(state), state.Counts())
  }

  lemma AddedFile(
    a: Doc, use: string, file: FileElem, row: FileRow, errors: nat, b: Doc, divs: seq<Div>, unfiled: nat)
    requires use in a.fileGrps
    requires a.dmdSecs <= b.dmdSecs && AmdsGrow(a, b) && b.errorCount == a.errorCount + errors
    requires b.fileGrps == a.fileGrps[use := a.fileGrps[use] + [file]]
    ensures Extends(a, b, Walked(divs, [Filed(use, file.(admId := None), row)], errors, unfiled))
  {
    var files := a.fileGrps[use] + [file];
    assert files[..|files| - 1] == a.fileGrps[use];
  }

  function WithAmd(doc: Doc, amd: AmdSec): Doc {
    doc.(amdSecs := doc.amdSecs + [amd], amdCounter := amd.number)
  }

  lemma AmdAppended(doc: Doc, c: Counters, rights: nat, provenance: nat)
    requires AllRising(doc.dmdSecs, doc.amdSecs, c) && c.amd == doc.amdCounter
    ensures var after := WithAmd(doc, NextAmd(c, rights, provenance));
            && AllRising(after.dmdSecs, after.amdSecs, Advanced(c, rights, provenance))
            && AmdsGrow(doc, after)
            && AmdIds(after.amdSecs) == AmdIds(doc.amdSecs) + [AmdId(after.amdCounter)]
  {
    AppendedRises(doc.dmdSecs, doc.amdSecs, c, rights, provenance);
  }

  /** The amdSec of one file: made from the counters and appended. */
  method AppendAmdSec(state: MetsState, row: FileRow, use: string)
    returns (id: string, ghost sec: Option<AmdSec>)
    requires state.Numbered()
    modifies state`amdCounter, state`techCounter, state`rightsCounter, state`digiprovCounter, state`amdSecs
    ensures state.Numbered()
    ensures AmdsGrow(old(View(state)), View(state))
    ensures AmdIds(state.amdSecs) == AmdIds(old(state.amdSecs)) + [id]
    ensures sec.Some? && id == AmdId(sec.value.number) && state.amdSecs == old(state.amdSecs) + [sec.value]
    ensures |sec.value.techMd| == 1 && |sec.value.digiprovMd| == row.provenance
    ensures |sec.value.rightsMd| == if use == "original" then row.rights else 0
  {
    AmdAppended(View(state), state.Counts(), if use == "original" then row.rights else 0, row.provenance);
    var amd := state.GetAmdSec(row, use);
    id, sec := AmdId(amd.number), Some(amd);
    state.amdSecs := state.amdSecs + [amd];
    assert View(state) == WithAmd(old(View(state)), amd);
  }

  /** The metadata.csv sections of one path. */
  method Describe(state: MetsState, db: Database, path: string) returns (ids: seq<string>)
    requires Valid(state)
    modifies state`dmdCounter, state`dmdSecs
    ensures Valid(state) && Extends(old(View(state)), View(state), NOTHING)
    ensures Among(ids, DmdIds(state.dmdSecs))
    ensures var secs := CsvSecs(db, path, old(state.dmdCounter));
            && Made(old(state.dmdSecs), old(state.dmdCounter), state.dmdSecs, state.dmdCounter, secs)
            && ids == DmdIds(secs)
  {
    ghost var before := state.dmdSecs;
    var metadata := if path in db.csv then db.csv[path] else [];
    SectionsHold(metadata, state.dmdCounter);
    InOrderNumbers(SectionsOf(metadata, state.dmdCounter), state.dmdCounter);
    ids := state.CreateDmdSecsFromCsv(metadata);
    DmdIdsGrow(before, state.dmdSecs[|before|..]);
  }

  /** The mets:file of one file, in the group of its use. */
  method FileUnder(state: MetsState, row: FileRow, use: string, file: FileElem, includeAmdSec: bool)
    requires Valid(state) && use in state.fileGrps && file.admId == None
    modifies state`amdCounter, state`techCounter, state`rightsCounter, state`digiprovCounter, state`amdSecs,
             state`fileGrps
    ensures Valid(state) && Extends(old(View(state)), View(state), Walked([], [Filed(use, file, row)], 0, 0))
    ensures Referring(
              old(state.fileGrps), old(state.amdSecs), state.fileGrps, state.amdSecs, [Filed(use, file, row)],
              includeAmdSec)
  {
    ghost var before := View(state);
    ghost var sec: Option<AmdSec> := None;
    var elem := file;
    if includeAmdSec {
      var admId;
      admId, sec := AppendAmdSec(state, row, use);
      elem := elem.(admId := Some(admId));
    }
    ghost var now, counters := View(state), state.Counts();
    FileAdded(before, now, counters, Filed(use, file, row), elem, sec);
    state.fileGrps := state.fileGrps[use := state.fileGrps[use] + [elem]];
    assert View(state) == WithFile(now, use, elem) && state.Counts() == counters;
  }

  function WithFile(doc: Doc, use: string, elem: FileElem): Doc
    requires use in doc.fileGrps
  {
    doc.(fileGrps := doc.fileGrps[use := doc.fileGrps[use] + [elem]])
  }

  /** The file element joins the section made for it, if any. */
  lemma FileAdded(before: Doc, now: Doc, c: Counters, f: Filed, elem: FileElem, sec: Option<AmdSec>)
    requires HasAllUses(before.fileGrps) && AdmResolved(before.fileGrps, AmdIds(before.amdSecs))
    requires AllRising(now.dmdSecs, now.amdSecs, c) && c.amd == now.amdCounter && AmdsGrow(before, now)
    requires now == before.(amdSecs := now.amdSecs, amdCounter := now.amdCounter)
    requires now.amdSecs == before.amdSecs + if sec.Some? then [sec.value] else []
    requires f.use in before.fileGrps && f.file.admId == None && (sec.Some? ==> Sized(sec.value, f))
    requires elem == f.file.(admId := if sec.Some? then Some(AmdId(sec.value.number)) else None)
    ensures ValidDoc(WithFile(now, f.use, elem), c)
    ensures Extends(before, WithFile(now, f.use, elem), Walked([], [f], 0, 0))
    ensures Referring(
              before.fileGrps, before.amdSecs, WithFile(now, f.use, elem).fileGrps, now.amdSecs, [f], sec.Some?)
  {
    if sec.Some? {
      AmdStep(before.amdSecs, sec.value);
    } else {
      assert before.amdSecs + [] == before.amdSecs;
    }
    FiledResolved(before.fileGrps, AmdIds(before.amdSecs), AmdIds(now.amdSecs), f.use, elem);
    ReferringOne(before.fileGrps, before.amdSecs, f, elem, sec);
    AddedFile(before, f.use, elem, f.row, 0, WithFile(now, f.use, elem), [], 0);
  }

  lemma FiledResolved(
    grps: map<string, seq<FileElem>>, ids: seq<string>, ids': seq<string>, use: string, elem: FileElem)
    requires AdmResolved(grps, ids) && HasAllUses(grps) && use in grps && ids <= ids'
    requires elem.admId.Some? ==> elem.admId.value in ids'
    ensures AdmResolved(grps[use := grps[use] + [elem]], ids') && HasAllUses(grps[use := grps[use] + [elem]])
  {
  }

  /** Errors and file element of one file whose group and use are known. */
  method Classify(state: MetsState, row: FileRow, groupId: string, use: string, href: string, includeAmdSec: bool)
    requires Valid(state)
    modifies state`amdCounter, state`techCounter, state`rightsCounter, state`digiprovCounter, state`amdSecs,
             state`fileGrps, state`errorCount
    ensures Valid(state)
    ensures Extends(old(View(state)), View(state), Classified(row, groupId, use, href))
    ensures Referring(
              old(state.fileGrps), old(state.amdSecs), state.fileGrps, state.amdSecs,
              Classified(row, groupId, use, href).filed, includeAmdSec)
  {
    ReferringNone(state.fileGrps, state.amdSecs, includeAmdSec);
    if groupId == "" {
      state.errorCount := state.errorCount + 1;
    }
    ghost var between := View(state);
    assert Extends(old(View(state)), between, Walked([], [], if groupId == "" then 1 else 0, 0));
    if use !in USES {
      state.errorCount := state.errorCount + 1;
      assert Extends(between, View(state), Walked([], [], 1, 0));
    } else {
      FileUnder(state, row, use, FileElem(FileId(row), groupId, href, None), includeAmdSec);
    }
    ExtendsTwice(
      old(View(state)), between, View(state), Walked([], [], if groupId == "" then 1 else 0, 0),
      if use in USES then Walked([], [Filed(use, FileElem(FileId(row), groupId, href, None), row)], 0, 0)
      else Walked([], [], 1, 0));
  }

  /** Everything a file's database record adds to the state. */
  method AddRow(state: MetsState, db: Database, row: FileRow, g: Grouping, href: string, includeAmdSec: bool)
    returns (ids: seq<string>)
    requires Valid(state)
    modifies state
    ensures Valid(state) && Extends(old(View(state)), View(state), Classified(row, g.groupId, g.use, href))
    ensures Among(ids, DmdIds(state.dmdSecs))
    ensures var secs := FileSecs(db, row, g, old(state.dmdCounter));
            && Made(old(state.dmdSecs), old(state.dmdCounter), state.dmdSecs, state.dmdCounter, secs)
            && ids == DmdIds(secs)
    ensures Referring(
              old(state.fileGrps), old(state.amdSecs), state.fileGrps, state.amdSecs,
              Classified(row, g.groupId, g.use, href).filed, includeAmdSec)
  {
    ids := [];
    assert state.dmdSecs + [] == state.dmdSecs && DmdIds([]) == [];
    if g.described {
      ids := Describe(state, db, ReplaceFirst(row.originalLocation, "%transferDirectory%", ""));
    }
    ghost var between := View(state);
    Classify(state, row, g.groupId, g.use, href, includeAmdSec);
    ExtendsThen(old(View(state)), between, View(state), Classified(row, g.groupId, g.use, href));
  }

  /** One directory entry that is a regular file. */
  method AddFile(state: MetsState, db: Database, base: string, name: string, path: string, includeAmdSec: bool)
    returns (r: Option<seq<Div>>)
    requires Valid(state)
    modifies state
    ensures r.Some? <==> WalkFile(db, base, name, path).Some?
    ensures r.Some? ==>
              && Valid(state) && Extends(old(View(state)), View(state), WalkFile(db, base, name, path).value)
              && BareDivs(r.value) == WalkFile(db, base, name, path).value.divs
              && Among(DmdRefs(r.value), DmdIds(state.dmdSecs))
    ensures r.Some? ==>
              Tracked(
                old(View(state)), old(state.dmdCounter), View(state), state.dmdCounter,
                WalkFile(db, base, name, path).value.filed,
                DescribedFile(db, base, name, path, old(state.dmdCounter)), r.value, includeAmdSec)
  {
    if Location(base, path) !in db.files {
      ReferringNone(state.fileGrps, state.amdSecs, includeAmdSec);
      state.errorCount := state.errorCount + 1;
      return Some([]);
    }
    var row := db.files[Location(base, path)];
    var grouping := GroupingOf(row);
    if grouping.None? {
      return None;
    }
    var ids := AddRow(state, db, row, grouping.value, Relative(base, path), includeAmdSec);
    var div := Div(if row.title == "" then name else row.title, false, ids, [FileId(row)], []);
    OneDiv(div);
    r := Some([div]);
  }

  // ---------------------------------------------------------------- directories

  lemma ThenNothing(w: Option<Walked>)
    ensures Then(NOTHING, w) == w
  {
    if w.Some? {
      assert [] + w.value.divs == w.value.divs && [] + w.value.filed == w.value.filed;
    }
  }

  lemma ThenTwice(a: Walked, b: Walked, w: Option<Walked>)
    ensures Then(a, Then(b, w)) == Then(Plus(a, b), w)
  {
    if w.Some? {
      SeqAssoc(a.divs, b.divs, w.value.divs);
      SeqAssoc(a.filed, b.filed, w.value.filed);
    }
  }

  lemma GroupsStay(grps: map<string, seq<FileElem>>)
    ensures GroupsGrow(grps, grps, [])
  {
  }

  lemma DmdSecsAdded(a: Doc, c: Counters, b: Doc, c': Counters)
    requires ValidDoc(a, c) && AllRising(b.dmdSecs, b.amdSecs, c') && c'.amd == c.amd
    requires a.dmdSecs <= b.dmdSecs && b == a.(dmdSecs := b.dmdSecs)
    ensures ValidDoc(b, c') && Extends(a, b, NOTHING)
  {
    GroupsStay(a.fileGrps);
  }

  /** The dmdSec of a directory with a record. */
  method DescribeRecord(state: MetsState, db: Database, base: string, path: string) returns (ids: seq<string>)
    requires Valid(state)
    modifies state`dmdCounter, state`dmdSecs
    ensures Valid(state) && Extends(old(View(state)), View(state), NOTHING)
    ensures Among(ids, DmdIds(state.dmdSecs))
    ensures var secs := RecordSecs(db, base, path, old(state.dmdCounter));
            && Made(old(state.dmdSecs), old(state.dmdCounter), state.dmdSecs, state.dmdCounter, secs)
            && ids == DmdIds(secs)
  {
    ids := [];
    ghost var before, counters := View(state), state.Counts();
    if Recorded(db, base, path) {
      var id := state.NewDmdSec(PremisObject);
      ghost var own := [DmdSec(state.dmdCounter, PremisObject, [])];
      DmdIdsGrow(before.dmdSecs, own);
      assert own[..0] == [];
      ids := [id];
    } else {
      assert state.dmdSecs + [] == state.dmdSecs;
    }
    DmdSecsAdded(before, counters, View(state), state.Counts());
  }

  /** The dmdSec of a directory with a record, and those of its metadata.csv columns. */
  method DescribeDirectory(state: MetsState, db: Database, base: string, path: string) returns (ids: seq<string>)
    requires Valid(state)
    modifies state`dmdCounter, state`dmdSecs
    ensures Valid(state) && Extends(old(View(state)), View(state), NOTHING)
    ensures Among(ids, DmdIds(state.dmdSecs))
    ensures var secs := DirectorySecs(db, base, path, old(state.dmdCounter));
            && Made(old(state.dmdSecs), old(state.dmdCounter), state.dmdSecs, state.dmdCounter, secs)
            && ids == DmdIds(secs)
  {
    ghost var before, k := View(state), state.dmdCounter;
    var own := DescribeRecord(state, db, base, path);
    ghost var between, n := View(state), state.dmdCounter;
    var described := Describe(state, db, Relative(base, path));
    ExtendsThen(before, between, View(state), NOTHING);
    DmdIdsKept(between.dmdSecs, state.dmdSecs);
    DirectoryMade(db, base, path, before.dmdSecs, k, between.dmdSecs, n, state.dmdSecs, state.dmdCounter);
    ids := own + described;
  }

  /** createFileSec on an existing directory; None where the script raises. */
  method CreateFileSec(
    state: MetsState, db: Database, base: string, name: string, entries: seq<Node>, path: string, includeAmdSec: bool)
    returns (r: Option<Div>)
    requires Valid(state)
    modifies state
    ensures r.Some? <==> Walk(db, base, entries, path).Some?
    ensures r.Some? ==>
              && Valid(state) && Extends(old(View(state)), View(state), Walk(db, base, entries, path).value)
              && BareDivs([r.value]) == [Div(name, true, [], [], Walk(db, base, entries, path).value.divs)]
              && Among(DmdRefs([r.value]), DmdIds(state.dmdSecs))
    ensures r.Some? ==>
              Tracked(
                old(View(state)), old(state.dmdCounter), View(state), state.dmdCounter,
                Walk(db, base, entries, path).value.filed,
                DescribedDirectory(db, base, name, entries, path, old(state.dmdCounter)), [r.value], includeAmdSec)
    decreases entries, 1
  {
    ghost var before, k := View(state), state.dmdCounter;
    var ids := DescribeDirectory(state, db, base, path);
    ghost var begun, n := View(state), state.dmdCounter;
    var children := AddEntries(state, db, base, entries, path, includeAmdSec);
    if children.None? {
      return None;
    }
    ghost var w := Walk(db, base, entries, path).value;
    ExtendsThen(before, begun, View(state), w);
    OneDiv(Div(name, true, ids, [], children.value));
    DmdIdsKept(begun.dmdSecs, state.dmdSecs);
    TrackedDirectory(
      db, base, name, entries, path, before, k, begun, n, View(state), state.dmdCounter, w.filed,
      DirectorySecs(db, base, path, k), DescribedEntries(db, base, entries, path, n), ids, children.value,
      includeAmdSec);
    r := Some(Div(name, true, ids, [], children.value));
  }

  /** Its loop over the entries. */
  method AddEntries(
    state: MetsState, db: Database, base: string, entries: seq<Node>, path: string, includeAmdSec: bool)
    returns (r: Option<seq<Div>>)
    requires Valid(state)
    modifies state
    ensures r.Some? <==> Walk(db, base, entries, path).Some?
    ensures r.Some? ==>
              && Valid(state)
              && Collected(old(View(state)), View(state), Walk(db, base, entries, path).value, r.value)
    ensures r.Some? ==>
              Tracked(
                old(View(state)), old(state.dmdCounter), View(state), state.dmdCounter,
                Walk(db, base, entries, path).value.filed,
                DescribedEntries(db, base, entries, path, old(state.dmdCounter)), r.value, includeAmdSec)
    decreases entries, 0
  {
    ghost var begun, n := View(state), state.dmdCounter;
    var children: seq<Div> := [];
    ghost var done, made := NOTHING, Described([], []);
    NothingCollected(begun, n, includeAmdSec);
    AllRemains(db, base, entries, path, n);
    for i := 0 to |entries|
      invariant Valid(state)
      invariant Collected(begun, View(state), done, children)
      invariant Tracked(begun, n, View(state), state.dmdCounter, done.filed, made, children, includeAmdSec)
      invariant Remains(db, base, entries, path, n, entries[i..], state.dmdCounter, done, made)
    {
      ghost var between, m := View(state), state.dmdCounter;
      var divs := AddEntry(state, db, base, entries[i], path, includeAmdSec);
      if divs.None? {
        RemainsNone(db, base, entries, path, n, i, m, done, made);
        return None;
      }
      ghost var one := WalkNode(db, base, entries[i], path).value;
      ghost var d := DescribedNode(db, base, entries[i], path, m);
      RemainsStep(db, base, entries, path, n, i, m, state.dmdCounter, done, made, one, d);
      CollectedStep(begun, between, View(state), done, one, children, divs.value);
      TrackedStep(
        begun, n, between, m, View(state), state.dmdCounter, done, one, made, d, children, divs.value, includeAmdSec);
      children, done, made := children + divs.value, Plus(done, one), After(made, d);
    }
    NothingRemains(db, base, entries, path, n, state.dmdCounter, done, made);
    r := Some(children);
  }

  /** The loop over the entries so far: the document grew by what was walked, the divs mirror it, and
      their references are good. */
  ghost predicate Collected(begun: Doc, now: Doc, done: Walked, children: seq<Div>) {
    && Extends(begun, now, done)
    && BareDivs(children) == done.divs
    && Among(DmdRefs(children), DmdIds(now.dmdSecs))
  }

  /** The divs have the references they should, and so do the files. */
  ghost predicate Tracked(
    begun: Doc, count: nat, now: Doc, count': nat, filed: seq<Filed>, made: Described, children: seq<Div>,
    includeAmdSec: bool)
  {
    && Made(begun.dmdSecs, count, now.dmdSecs, count', made.secs) && children == made.divs
    && Referring(begun.fileGrps, begun.amdSecs, now.fileGrps, now.amdSecs, filed, includeAmdSec)
  }

  /** What is done and what remains make up the whole. */
  ghost predicate Remains(
    db: Database, base: string, entries: seq<Node>, path: string, n: nat, rest: seq<Node>, m: nat, done: Walked,
    made: Described)
  {
    && Then(done, Walk(db, base, rest, path)) == Walk(db, base, entries, path)
    && After(made, DescribedEntries(db, base, rest, path, m)) == DescribedEntries(db, base, entries, path, n)
  }

  lemma NothingCollected(doc: Doc, n: nat, includeAmdSec: bool)
    ensures Collected(doc, doc, NOTHING, [])
    ensures Tracked(doc, n, doc, n, [], Described([], []), [], includeAmdSec)
  {
    assert doc.dmdSecs + [] == doc.dmdSecs;
    ReferringNone(doc.fileGrps, doc.amdSecs, includeAmdSec);
  }

  lemma AllRemains(db: Database, base: string, entries: seq<Node>, path: string, n: nat)
    ensures Remains(db, base, entries, path, n, entries[0..], n, NOTHING, Described([], []))
  {
    assert entries[0..] == entries;
    ThenNothing(Walk(db, base, entries, path));
    AfterNothing(DescribedEntries(db, base, entries, path, n));
  }

  lemma NothingRemains(
    db: Database, base: string, entries: seq<Node>, path: string, n: nat, m: nat, done: Walked, made: Described)
    requires Remains(db, base, entries, path, n, entries[|entries|..], m, done, made)
    ensures Walk(db, base, entries, path) == Some(done) && DescribedEntries(db, base, entries, path, n) == made
  {
    assert entries[|entries|..] == [];
    ThenDone(done);
    AfterDone(made);
  }

  lemma RemainsNone(
    db: Database, base: string, entries: seq<Node>, path: string, n: nat, i: nat, m: nat, done: Walked,
    made: Described)
    requires i < |entries| && Remains(db, base, entries, path, n, entries[i..], m, done, made)
    requires WalkNode(db, base, entries[i], path).None?
    ensures Walk(db, base, entries, path).None?
  {
    assert entries[i..][0] == entries[i];
  }

  lemma RemainsStep(
    db: Database, base: string, entries: seq<Node>, path: string, n: nat, i: nat, m: nat, m': nat, done: Walked,
    made: Described, one: Walked, d: Described)
    requires i < |entries| && Remains(db, base, entries, path, n, entries[i..], m, done, made)
    requires WalkNode(db, base, entries[i], path) == Some(one)
    requires DescribedNode(db, base, entries[i], path, m) == d && m' == m + |d.secs|
    ensures Remains(db, base, entries, path, n, entries[i + 1..], m', Plus(done, one), After(made, d))
  {
    var rest := entries[i..];
    assert rest[0] == entries[i] && rest[1..] == entries[i + 1..];
    AfterTwice(made, d, DescribedEntries(db, base, entries[i + 1..], path, m'));
    ThenTwice(done, one, Walk(db, base, entries[i + 1..], path));
  }

  lemma CollectedStep(
    begun: Doc, between: Doc, now: Doc, done: Walked, one: Walked, children: seq<Div>, divs: seq<Div>)
    requires Collected(begun, between, done, children)
    requires Extends(between, now, one) && BareDivs(divs) == one.divs && Among(DmdRefs(divs), DmdIds(now.dmdSecs))
    ensures Collected(begun, now, Plus(done, one), children + divs)
  {
    ExtendsTwice(begun, between, now, done, one);
    DivsConcat(children, divs);
    DmdIdsKept(between.dmdSecs, now.dmdSecs);
  }

  lemma TrackedStep(
    begun: Doc, n: nat, between: Doc, m: nat, now: Doc, m': nat, done: Walked, one: Walked, made: Described,
    d: Described, children: seq<Div>, divs: seq<Div>, includeAmdSec: bool)
    requires Tracked(begun, n, between, m, done.filed, made, children, includeAmdSec)
    requires Tracked(between, m, now, m', one.filed, d, divs, includeAmdSec)
    ensures Tracked(begun, n, now, m', Plus(done, one).filed, After(made, d), children + divs, includeAmdSec)
  {
    MadeTwice(begun.dmdSecs, n, between.dmdSecs, m, now.dmdSecs, m', made.secs, d.secs);
    ReferringTwice(
      begun.fileGrps, begun.amdSecs, between.fileGrps, between.amdSecs, now.fileGrps, now.amdSecs,
      done.filed, one.filed, includeAmdSec);
  }

  lemma TrackedDirectory(
    db: Database, base: string, name: string, entries: seq<Node>, path: string, before: Doc, k: nat, begun: Doc,
    n: nat, now: Doc, m: nat, filed: seq<Filed>, own: seq<DmdSec>, made: Described, ids: seq<string>,
    children: seq<Div>, includeAmdSec: bool)
    requires own == DirectorySecs(db, base, path, k) && ids == DmdIds(own)
    requires Made(before.dmdSecs, k, begun.dmdSecs, n, own)
    requires before.fileGrps == begun.fileGrps && before.amdSecs == begun.amdSecs
    requires DescribedEntries(db, base, entries, path, n) == made
    requires Tracked(begun, n, now, m, filed, made, children, includeAmdSec)
    ensures Tracked(
              before, k, now, m, filed, DescribedDirectory(db, base, name, entries, path, k),
              [Div(name, true, ids, [], children)], includeAmdSec)
  {
    MadeTwice(before.dmdSecs, k, begun.dmdSecs, n, now.dmdSecs, m, own, made.secs);
  }

  lemma ThenDone(done: Walked)
    ensures Then(done, Some(NOTHING)) == Some(done)
  {
    assert done.divs + [] == done.divs && done.filed + [] == done.filed;
  }

  method AddEntry(state: MetsState, db: Database, base: string, node: Node, at: string, includeAmdSec: bool)
    returns (r: Option<seq<Div>>)
    requires Valid(state)
    modifies state
    ensures r.Some? <==> WalkNode(db, base, node, at).Some?
    ensures r.Some? ==>
              && Valid(state) && Extends(old(View(state)), View(state), WalkNode(db, base, node, at).value)
              && BareDivs(r.value) == WalkNode(db, base, node, at).value.divs
              && Among(DmdRefs(r.value), DmdIds(state.dmdSecs))
    ensures r.Some? ==>
              Tracked(
                old(View(state)), old(state.dmdCounter), View(state), state.dmdCounter,
                WalkNode(db, base, node, at).value.filed,
                DescribedNode(db, base, node, at, old(state.dmdCounter)), r.value, includeAmdSec)
    decreases node, 1
  {
    match node
    case File(_, _) =>
      r := AddFile(state, db, base, node.name, Below(at, node.name), includeAmdSec);
    case Dir(_, entries) =>
      var div := CreateFileSec(state, db, base, node.name, entries, Below(at, node.name), includeAmdSec);
      r := if div.None? then None else Some([div.value]);
  }
}
