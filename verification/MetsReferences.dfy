/** The file section and the structural map of a whole document point at each other
    (worker/worker/clientScripts/create_mets_v2.py). */
module MetsReferences {
  import opened Text
  import opened DirTree
  import opened Mets
  import opened FileReferences
  import opened FileSec
  import opened MetsBuilder
  import opened MetsDocument
  import opened MetsFiles
  import opened MetsContents
  import opened SectionReferences

  function ElemIds(files: seq<FileElem>): seq<string> {
    if files == [] then [] else [files[0].id] + ElemIds(files[1..])
  }

  lemma {:induction false} ElemIdsConcat(a: seq<FileElem>, b: seq<FileElem>)
    ensures ElemIds(a + b) == ElemIds(a) + ElemIds(b)
  {
    if a == [] {
      assert a + b == b;
    } else {
      assert (a + b)[1..] == a[1..] + b;
      ElemIdsConcat(a[1..], b);
    }
  }

  lemma {:induction false} BareIds(files: seq<FileElem>)
    ensures ElemIds(Bare(files)) == ElemIds(files)
  {
    if files != [] {
      var before, last := files[..|files| - 1], files[|files| - 1];
      BareIds(before);
      assert files == before + [last];
      ElemIdsConcat(before, [last]);
      ElemIdsConcat(Bare(before), [last.(admId := None)]);
    }
  }

  /** The identifiers of all files in the groups of the given uses. */
  function GroupIds(grps: map<string, seq<FileElem>>, uses: seq<string>): multiset<string>
    requires forall use | use in uses :: use in grps
  {
    if uses == [] then multiset{} else multiset(ElemIds(grps[uses[0]])) + GroupIds(grps, uses[1..])
  }

  function IdsOfUse(filed: seq<Filed>, use: string): multiset<string> {
    if filed == [] then multiset{}
    else if filed[0].use == use then multiset{filed[0].file.id} + IdsOfUse(filed[1..], use)
    else IdsOfUse(filed[1..], use)
  }

  lemma {:induction false} IdsOfUseAre(filed: seq<Filed>, use: string)
    ensures multiset(ElemIds(OfUse(filed, use))) == IdsOfUse(filed, use)
  {
    if filed != [] {
      IdsOfUseAre(filed[1..], use);
    }
  }

  function ByUse(filed: seq<Filed>, uses: seq<string>): multiset<string> {
    if uses == [] then multiset{} else IdsOfUse(filed, uses[0]) + ByUse(filed, uses[1..])
  }

  lemma {:induction false} GroupIdsByUse(
    a: map<string, seq<FileElem>>, b: map<string, seq<FileElem>>, filed: seq<Filed>, uses: seq<string>)
    requires GroupsGrow(a, b, filed) && forall use | use in uses :: use in a && a[use] == []
    ensures GroupIds(b, uses) == ByUse(filed, uses)
  {
    if uses != [] {
      GroupIdsByUse(a, b, filed, uses[1..]);
      assert Bare(b[uses[0]]) == OfUse(filed, uses[0]);
      BareIds(b[uses[0]]);
      IdsOfUseAre(filed, uses[0]);
    }
  }

  /** One more file adds its identifier to its own group only. */
  lemma {:induction false} ByUseStep(filed: seq<Filed>, uses: seq<string>)
    requires Distinct(uses) && filed != []
    ensures ByUse(filed, uses)
            == ByUse(filed[1..], uses) + if filed[0].use in uses then multiset{filed[0].file.id} else multiset{}
  {
    if uses != [] {
      ByUseStep(filed, uses[1..]);
    }
  }

  lemma {:induction false} ByUseAll(filed: seq<Filed>, uses: seq<string>)
    requires Distinct(uses) && forall f | f in filed :: f.use in uses
    ensures ByUse(filed, uses) == multiset(Ids(filed))
  {
    if filed == [] {
      ByUseNone(uses);
    } else {
      ByUseAll(filed[1..], uses);
      ByUseStep(filed, uses);
      assert filed[0] in filed;
    }
  }

  lemma {:induction false} ByUseNone(uses: seq<string>)
    ensures ByUse([], uses) == multiset{}
  {
    if uses != [] {
      ByUseNone(uses[1..]);
    }
  }

  lemma {:induction false} IfPresentFollows(
    db: Database, root: string, name: string, dir: Option<seq<Node>>, rest: seq<Node>)
    requires WalkIfPresent(db, root + "/", dir, Below(root, name)).Some?
    ensures Listed(db, root + "/", Listing((if dir.Some? then [Dir(name, dir.value)] else []) + rest, root))
            == Fptrs(WalkIfPresent(db, root + "/", dir, Below(root, name)).value.divs)
              + Listed(db, root + "/", Listing(rest, root))
  {
    if dir.Some? {
      var node := Dir(name, dir.value);
      assert ([node] + rest)[1..] == rest;
      PointersFollowTheTree(db, root + "/", dir.value, Below(root, name));
      ListedConcat(db, root + "/", [(Below(root, name), true)], Listing(dir.value, Below(root, name)));
      ListedConcat(db, root + "/", NodeListing(node, root), Listing(rest, root));
    } else {
      assert [] + rest == rest;
    }
  }

  /** No two pointers of the document are equal, whichever of the two directories they are in. */
  lemma PointersDistinct(db: Database, root: string, objects: Option<seq<Node>>, metadata: Option<seq<Node>>)
    requires UniqueUuids(db) && ValidDir(PackageEntries(objects, metadata))
    requires WalkIfPresent(db, root + "/", objects, Below(root, "objects")).Some?
    requires WalkIfPresent(db, root + "/", metadata, Below(root, "metadata")).Some?
    ensures Distinct(
              Fptrs(WalkIfPresent(db, root + "/", objects, Below(root, "objects")).value.divs)
              + Fptrs(WalkIfPresent(db, root + "/", metadata, Below(root, "metadata")).value.divs))
  {
    var entries := PackageEntries(objects, metadata);
    var second := if metadata.Some? then [Dir("metadata", metadata.value)] else [];
    IfPresentFollows(db, root, "objects", objects, second);
    IfPresentFollows(db, root, "metadata", metadata, []);
    assert second + [] == second;
    ListingDistinct(entries, root);
    ListingUnder(entries, root);
    ListedDistinct(db, root + "/", Listing(entries, root));
    var w := WalkIfPresent(db, root + "/", objects, Below(root, "objects")).value;
    var v := WalkIfPresent(db, root + "/", metadata, Below(root, "metadata")).value;
    assert Listed(db, root + "/", Listing([], root)) == [];
    assert Fptrs(v.divs) + [] == Fptrs(v.divs);
    assert Listed(db, root + "/", Listing(second, root)) == Fptrs(v.divs);
    assert Listed(db, root + "/", Listing(entries, root)) == Fptrs(w.divs) + Fptrs(v.divs);
  }

  lemma ListingUnder(dir: seq<Node>, root: string)
    requires ValidDir(dir)
    ensures forall i | 0 <= i < |Listing(dir, root)| :: IsPrefix(root + "/", Listing(dir, root)[i].0)
  {
    ListedUnder(dir, root);
    forall i | 0 <= i < |Listing(dir, root)| ensures IsPrefix(root + "/", Listing(dir, root)[i].0) {
      assert UnderOne(root, Names(dir), Listing(dir, root)[i].0);
    }
  }

  /** The files of the file section and the pointers of the structural map of a new document are the
      same, each once, exactly when every file met has a known use; a walk without errors is such. */
  lemma {:induction false} FilesAndPointersAgree(
    db: Database, root: string, objects: Option<seq<Node>>, metadata: Option<seq<Node>>,
    start: map<string, seq<FileElem>>, grps: map<string, seq<FileElem>>)
    requires UniqueUuids(db) && ValidDir(PackageEntries(objects, metadata))
    requires WalkIfPresent(db, root + "/", objects, Below(root, "objects")).Some?
    requires WalkIfPresent(db, root + "/", metadata, Below(root, "metadata")).Some?
    requires HasAllUses(start) && HasAllUses(grps) && forall use | use in USES :: start[use] == []
    requires var w := WalkIfPresent(db, root + "/", objects, Below(root, "objects")).value;
             var v := WalkIfPresent(db, root + "/", metadata, Below(root, "metadata")).value;
             GroupsGrow(start, grps, w.filed + v.filed)
    ensures var w := WalkIfPresent(db, root + "/", objects, Below(root, "objects")).value;
            var v := WalkIfPresent(db, root + "/", metadata, Below(root, "metadata")).value;
            var pointers := Fptrs(w.divs) + Fptrs(v.divs);
            && Distinct(pointers)
            && GroupIds(grps, USES) <= multiset(pointers)
            && (GroupIds(grps, USES) == multiset(pointers) <==> w.unfiled + v.unfiled == 0)
            && (w.errors + v.errors == 0 ==> GroupIds(grps, USES) == multiset(pointers))
  {
    var w := WalkIfPresent(db, root + "/", objects, Below(root, "objects")).value;
    var v := WalkIfPresent(db, root + "/", metadata, Below(root, "metadata")).value;
    if objects.Some? {
      PointersAreFiled(db, root + "/", objects.value, Below(root, "objects"));
    }
    if metadata.Some? {
      PointersAreFiled(db, root + "/", metadata.value, Below(root, "metadata"));
    }
    PointersDistinct(db, root, objects, metadata);
    IdsConcat(w.filed, v.filed);
    UsesAreDistinct();
    GroupIdsByUse(start, grps, w.filed + v.filed, USES);
    ByUseAll(w.filed + v.filed, USES);
  }

  lemma UsesAreDistinct()
    ensures Distinct(USES)
  {
    assert USES[0][0] == 'o' && USES[1][0] == 's' && USES[2][0] == 'p' && USES[3][1] == 'e' && USES[4][0] == 'a';
    assert USES[5][0] == 'l' && USES[6][0] == 't' && USES[7][0] == 'm' && USES[8][0] == 'd';
    assert USES[3][0] == 's' && USES[1][1] == 'u';
  }

  lemma {:induction false} BareFptrs(divs: seq<Div>)
    ensures Fptrs(BareDivs(divs)) == Fptrs(divs)
  {
    if divs != [] {
      BareFptrs(divs[0].children);
      BareFptrs(divs[1..]);
      assert BareDivs(divs)[1..] == BareDivs(divs[1..]);
    }
  }

  lemma DirDivFptrs(name: string, dir: Option<seq<Node>>, w: Walked)
    requires dir.None? ==> w == NOTHING
    ensures Fptrs(DirDiv(name, dir, w)) == Fptrs(w.divs)
  {
    if dir.Some? {
      assert [Div(name, true, [], [], w.divs)][1..] == [];
    }
  }

  /** The pointers of a structural map are those of the two directories walked. */
  lemma StructMapPointers(
    structMap: Div, sipName: string, objects: Option<seq<Node>>, metadata: Option<seq<Node>>, w: Walked, v: Walked)
    requires (objects.None? ==> w == NOTHING) && (metadata.None? ==> v == NOTHING)
    requires BareDivs([structMap])
             == [Div(sipName, true, [], [], DirDiv("objects", objects, w) + DirDiv("metadata", metadata, v))]
    ensures Fptrs([structMap]) == Fptrs(w.divs) + Fptrs(v.divs)
  {
    BareFptrs([structMap]);
    var inside := DirDiv("objects", objects, w) + DirDiv("metadata", metadata, v);
    assert [Div(sipName, true, [], [], inside)][1..] == [];
    FptrsConcat(DirDiv("objects", objects, w), DirDiv("metadata", metadata, v));
    DirDivFptrs("objects", objects, w);
    DirDivFptrs("metadata", metadata, v);
  }

  /** Every administrative section of the document is referred to once: that of the object metadata by the objects
      div, and each other by a file of its own. Without administrative sections for files only the former is there,
      and no file refers to any. */
  ghost predicate SectionsUsed(d: Document, m: ObjectMetadata, includeAmdSec: bool) {
    && (includeAmdSec ==> Refs(d.amdSecs) == AllAdms(d.fileGrps) + KeptRef(m, d.objectsAdm))
    && (!includeAmdSec ==> NoMoreRefs(multiset{}, AllAdms(d.fileGrps)) && Refs(d.amdSecs) == KeptRef(m, d.objectsAdm))
  }

  lemma {:induction false} NoAdms(grps: map<string, seq<FileElem>>)
    requires forall use | use in grps :: grps[use] == []
    ensures AllAdms(grps) == multiset{}
    decreases |grps|
  {
    if grps != map[] {
      var use := SomeUse(grps);
      GroupLess(grps, use);
      NoAdms(grps - {use});
    }
  }

  /** The files of the finished document and the pointers of its structural map are the same, each once, when no
      error was counted; the pointers only ever exceed the files. */
  ghost predicate Corresponds(d: Document, errors: nat) {
    && HasAllUses(d.fileGrps)
    && Distinct(Fptrs([d.structMap]))
    && GroupIds(d.fileGrps, USES) <= multiset(Fptrs([d.structMap]))
    && (errors == 0 ==> GroupIds(d.fileGrps, USES) == multiset(Fptrs([d.structMap])))
  }

  ghost predicate Fresh(doc: Doc) {
    && doc.dmdSecs == [] && doc.amdSecs == [] && doc.errorCount == 0 && HasAllUses(doc.fileGrps)
    && forall use | use in doc.fileGrps :: doc.fileGrps[use] == []
  }

  lemma SectionsUsedAnew(
    start: Doc, now: Doc, d: Document, sipName: string, i: seq<Filed>, j: seq<Filed>, m: ObjectMetadata, p: Parts,
    includeAmdSec: bool)
    requires Fresh(start) && BuiltFrom(d, now, sipName, p)
    requires AllReferred(start.fileGrps, start.amdSecs, now.fileGrps, now.amdSecs, i, j, m, p.admId, includeAmdSec)
    ensures SectionsUsed(d, m, includeAmdSec)
  {
    NoAdms(start.fileGrps);
    assert d.amdSecs[0..] == d.amdSecs;
  }

  lemma BuiltAnew(
    db: Database, root: string, sipName: string, objects: Option<seq<Node>>, metadata: Option<seq<Node>>,
    m: ObjectMetadata, start: Doc, now: Doc, d: Document, p: Parts)
    requires UniqueUuids(db) && ValidDir(PackageEntries(objects, metadata)) && Fresh(start)
    requires WalkIfPresent(db, root + "/", objects, Below(root, "objects")).Some?
    requires WalkIfPresent(db, root + "/", metadata, Below(root, "metadata")).Some?
    requires var w := WalkIfPresent(db, root + "/", objects, Below(root, "objects")).value;
             var v := WalkIfPresent(db, root + "/", metadata, Below(root, "metadata")).value;
             && Joined(start, now, w, v, m, p) && Finished(d, now, sipName, p)
             && BareDivs(p.objects) == DirDiv("objects", objects, w)
             && BareDivs(p.metadata) == DirDiv("metadata", metadata, v)
    ensures Corresponds(d, now.errorCount)
  {
    var w := WalkIfPresent(db, root + "/", objects, Below(root, "objects")).value;
    var v := WalkIfPresent(db, root + "/", metadata, Below(root, "metadata")).value;
    FilesAndPointersAgree(db, root, objects, metadata, start.fileGrps, now.fileGrps);
    StructMapPointers(d.structMap, sipName, objects, metadata, w, v);
  }

  /** All that holds of a document built with a new state, with the counter of descriptive sections at n. */
  ghost predicate Consistent(
    db: Database, root: string, sipName: string, sipRecord: bool, objects: Option<seq<Node>>,
    metadata: Option<seq<Node>>, m: ObjectMetadata, includeAmdSec: bool, n: nat, d: Document, errors: nat)
  {
    && Describes(d, errors, db, root, sipName, PackageEntries(objects, metadata), includeAmdSec)
    && Sound(d) && (Dangling(d) <==> m.Hollow())
    && Corresponds(d, errors)
    && SectionsUsed(d, m, includeAmdSec)
    && DescriptiveUsed(d, db, root + "/", sipRecord, objects, metadata, n)
  }

  lemma DescribedAnew(
    db: Database, root: string, sipName: string, objects: Option<seq<Node>>, metadata: Option<seq<Node>>,
    m: ObjectMetadata, includeAmdSec: bool, start: Doc, now: Doc, d: Document, p: Parts)
    requires Fresh(start)
    requires WalkIfPresent(db, root + "/", objects, Below(root, "objects")).Some?
    requires WalkIfPresent(db, root + "/", metadata, Below(root, "metadata")).Some?
    requires var w := WalkIfPresent(db, root + "/", objects, Below(root, "objects")).value;
             var v := WalkIfPresent(db, root + "/", metadata, Below(root, "metadata")).value;
             && Joined(start, now, w, v, m, p) && Finished(d, now, sipName, p)
             && BareDivs(p.objects) == DirDiv("objects", objects, w)
             && BareDivs(p.metadata) == DirDiv("metadata", metadata, v)
             && AllReferred(
                  start.fileGrps, start.amdSecs, now.fileGrps, now.amdSecs, w.filed, v.filed, m, p.admId, includeAmdSec)
    ensures Describes(d, now.errorCount, db, root, sipName, PackageEntries(objects, metadata), includeAmdSec)
  {
    assert now.amdSecs[0..] == now.amdSecs;
    PackageDescribed(d, now.errorCount, db, root, sipName, objects, metadata, start.fileGrps, m, includeAmdSec);
  }

  lemma CompleteAnew(
    db: Database, root: string, sipName: string, sipRecord: bool, objects: Option<seq<Node>>,
    metadata: Option<seq<Node>>, m: ObjectMetadata, includeAmdSec: bool, start: Doc, n: nat, now: Doc, d: Document,
    p: Parts)
    requires UniqueUuids(db) && ValidDir(PackageEntries(objects, metadata)) && Fresh(start)
    requires Complete(
               db, root + "/", sipName, sipRecord, objects, metadata, m, includeAmdSec, start, n, now, d, p)
    ensures Consistent(db, root, sipName, sipRecord, objects, metadata, m, includeAmdSec, n, d, now.errorCount)
  {
    assert root + "/" + "objects" == Below(root, "objects") && root + "/" + "metadata" == Below(root, "metadata");
    var w := WalkIfPresent(db, root + "/", objects, Below(root, "objects")).value;
    var v := WalkIfPresent(db, root + "/", metadata, Below(root, "metadata")).value;
    BuiltAnew(db, root, sipName, objects, metadata, m, start, now, d, p);
    SectionsUsedAnew(start, now, d, sipName, w.filed, v.filed, m, p, includeAmdSec);
    DescriptiveUsedAnew(db, root + "/", sipName, sipRecord, objects, metadata, n, now, d, p);
    DescribedAnew(db, root, sipName, objects, metadata, m, includeAmdSec, start, now, d, p);
  }

  /** The script raises exactly at a derived file whose source cannot be found, or when there is object metadata but
      no objects directory. */
  lemma GathersExactly(
    db: Database, root: string, objects: Option<seq<Node>>, metadata: Option<seq<Node>>, m: ObjectMetadata)
    ensures Gathers(db, root + "/", objects, metadata, m)
            <==> !SomeOrphan(db, root + "/", Listing(PackageEntries(objects, metadata), root))
                 && (objects.Some? || m.Absent())
  {
    assert root + "/" + "objects" == Below(root, "objects") && root + "/" + "metadata" == Below(root, "metadata");
    PackageWalk(db, root, objects, metadata);
    WalkErrors(db, root + "/", PackageEntries(objects, metadata), root);
  }

  /** main with a new state. */
  method NewDocument(
    db: Database, root: string, sipName: string, sipRecord: bool, objects: Option<seq<Node>>,
    metadata: Option<seq<Node>>, m: ObjectMetadata, dcRecord: bool, includeAmdSec: bool)
    returns (r: Option<Document>, errors: nat)
    requires UniqueUuids(db) && ValidDir(PackageEntries(objects, metadata))
    ensures r.Some? <==> && !SomeOrphan(db, root + "/", Listing(PackageEntries(objects, metadata), root))
                         && (objects.Some? || m.Absent())
    ensures r.Some? ==>
              && (r.value.dc.Some? <==> dcRecord)
              && Consistent(db, root, sipName, sipRecord, objects, metadata, m, includeAmdSec, 0, r.value, errors)
  {
    GathersExactly(db, root, objects, metadata, m);
    var state := new MetsState(0, 0, 0);
    assert Valid(state) && state.dmdCounter == 0;
    ghost var start, n := View(state), state.dmdCounter;
    assert Fresh(start);
    ghost var parts;
    r, parts := BuildDocument(
      state, db, root + "/", sipName, sipRecord, objects, metadata, m, dcRecord, includeAmdSec);
    errors := state.errorCount;
    if r.Some? {
      CompleteAnew(
        db, root, sipName, sipRecord, objects, metadata, m, includeAmdSec, start, n, View(state), r.value, parts);
    }
  }
}
