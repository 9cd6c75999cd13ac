/** Which descriptive sections of a METS document its structural map refers to
    (worker/worker/clientScripts/create_mets_v2.py). */
module SectionReferences {
  import opened Text
  import opened DirTree
  import opened Mets
  import opened MetsFiles
  import opened MetsBuilder
  import opened FileReferences
  import opened FileSec
  import opened MetsDocument

  // ---------------------------------------------------------------- what is described

  function ColumnsFor(db: Database, path: string): seq<Field> {
    if path in db.csv then db.csv[path] else []
  }

  /** The sections of a directory of the package: one if it has a record, with or without a slash at its end, and those
      of the columns for its path. */
  lemma DirectorySecsAre(db: Database, base: string, rest: string, n: nat)
    ensures var recorded := || "%SIPDirectory%" + rest + "/" in db.directories
                            || "%SIPDirectory%" + rest in db.directories;
            var own := if recorded then [DmdSec(n + 1, PremisObject, [])] else [];
            DirectorySecs(db, base, base + rest, n) == own + SectionsOf(ColumnsFor(db, rest), n + |own|).InOrder()
  {
    assert (base + rest)[..|base|] == base && (base + rest)[|base|..] == rest;
    assert "" + rest == rest;
  }

  /** The sections of a file: for an original that is a group of its own, those of the columns for the path it had in
      the transfer; all other files have none. */
  lemma FileSecsAre(db: Database, base: string, name: string, path: string, rest: string, n: nat)
    requires Location(base, path) in db.files
    requires db.files[Location(base, path)].originalLocation == "%transferDirectory%" + rest
    ensures var row := db.files[Location(base, path)];
            DescribedFile(db, base, name, path, n).secs
            == if OwnGroup(row) && UseIs(row, "original") then SectionsOf(ColumnsFor(db, rest), n).InOrder() else []
  {
    var row := db.files[Location(base, path)];
    GroupingIs(row);
    assert row.originalLocation[|"%transferDirectory%"|..] == rest && "" + rest == rest;
  }

  // ---------------------------------------------------------------- the walks

  predicate ReferInOrder(divs: seq<Div>, secs: seq<DmdSec>) {
    DmdRefs(divs) == DmdIds(secs)
  }

  /** The sections have the numbers after the counter. */
  predicate NumberedFrom(secs: seq<DmdSec>, n: nat) {
    forall i | 0 <= i < |secs| :: secs[i].number == n + 1 + i
  }

  lemma NumberedConcat(a: seq<DmdSec>, b: seq<DmdSec>, n: nat)
    requires NumberedFrom(a, n) && NumberedFrom(b, n + |a|)
    ensures NumberedFrom(a + b, n)
  {
  }

  lemma CsvSecsNumbered(db: Database, path: string, n: nat)
    ensures NumberedFrom(CsvSecs(db, path, n), n)
  {
    CsvSectionsHold(if path in db.csv then db.csv[path] else [], n);
  }

  lemma DirectorySecsNumbered(db: Database, base: string, path: string, n: nat)
    ensures NumberedFrom(DirectorySecs(db, base, path, n), n)
  {
    var own := RecordSecs(db, base, path, n);
    CsvSecsNumbered(db, Relative(base, path), n + |own|);
    NumberedConcat(own, CsvSecs(db, Relative(base, path), n + |own|), n);
  }

  predicate Refers(d: Described, n: nat) {
    ReferInOrder(d.divs, d.secs) && NumberedFrom(d.secs, n)
  }

  lemma BothRefer(first: Described, rest: Described, n: nat)
    requires Refers(first, n) && Refers(rest, n + |first.secs|)
    ensures Refers(Described(first.divs + rest.divs, first.secs + rest.secs), n)
  {
    NumberedConcat(first.secs, rest.secs, n);
    DivsConcat(first.divs, rest.divs);
    DmdIdsGrow(first.secs, rest.secs);
  }

  lemma DivRefers(name: string, own: seq<DmdSec>, inner: Described, n: nat)
    requires NumberedFrom(own, n) && Refers(inner, n + |own|)
    ensures Refers(WithOwn(name, own, inner), n)
  {
    NumberedConcat(own, inner.secs, n);
    OneDiv(Div(name, true, DmdIds(own), [], inner.divs));
    DmdIdsGrow(own, inner.secs);
  }

  /** The divs of a walk refer to the sections made on the way, each once and in order; these have the next numbers. */
  lemma {:induction false} EntriesRefer(db: Database, base: string, entries: seq<Node>, at: string, n: nat)
    returns (d: Described)
    ensures d == DescribedEntries(db, base, entries, at, n) && Refers(d, n)
    decreases entries, 0
  {
    if entries == [] {
      d := Described([], []);
    } else {
      var first := DescribedNode(db, base, entries[0], at, n);
      NodeRefers(db, base, entries[0], at, n);
      var rest := EntriesRefer(db, base, entries[1..], at, n + |first.secs|);
      BothRefer(first, rest, n);
      d := Described(first.divs + rest.divs, first.secs + rest.secs);
    }
  }

  lemma {:induction false} NodeRefers(db: Database, base: string, node: Node, at: string, n: nat)
    ensures Refers(DescribedNode(db, base, node, at, n), n)
    decreases node, 1
  {
    match node
    case File(name, _) => FileRefers(db, base, name, Below(at, name), n);
    case Dir(name, entries) => DirectoryRefers(db, base, name, entries, Below(at, name), n);
  }

  lemma FileRefers(db: Database, base: string, name: string, path: string, n: nat)
    ensures Refers(DescribedFile(db, base, name, path, n), n)
  {
    var d := DescribedFile(db, base, name, path, n);
    if d.divs != [] {
      OneDiv(d.divs[0]);
      CsvSecsNumbered(db, ReplaceFirst(db.files[Location(base, path)].originalLocation, "%transferDirectory%", ""), n);
    }
  }

  lemma {:induction false} DirectoryRefers(
    db: Database, base: string, name: string, entries: seq<Node>, path: string, n: nat)
    ensures Refers(DescribedDirectory(db, base, name, entries, path, n), n)
    decreases entries, 1
  {
    var own := DirectorySecs(db, base, path, n);
    var inner := EntriesRefer(db, base, entries, path, n + |own|);
    DirectoryDescribed(db, base, name, entries, path, n, own, inner);
    DirectorySecsNumbered(db, base, path, n);
    DivRefers(name, own, inner, n);
  }

  lemma DirectoryDescribed(
    db: Database, base: string, name: string, entries: seq<Node>, path: string, n: nat, own: seq<DmdSec>,
    inner: Described)
    requires own == DirectorySecs(db, base, path, n)
    requires inner == DescribedEntries(db, base, entries, path, n + |own|)
    ensures DescribedDirectory(db, base, name, entries, path, n) == WithOwn(name, own, inner)
  {
  }

  lemma PresentRefers(db: Database, base: string, name: string, dir: Option<seq<Node>>, path: string, n: nat)
    ensures Refers(DescribedIfPresent(db, base, name, dir, path, n), n)
  {
    if dir.Some? {
      DirectoryRefers(db, base, name, dir.value, path, n);
    }
  }

  // ---------------------------------------------------------------- the document

  /** The references collected, in the order of the structural map. */
  function PartsRefs(p: Parts): seq<string> {
    p.ids + DmdRefs(p.objects) + DmdRefs(p.metadata)
  }

  lemma PartsRefer(
    db: Database, base: string, sipRecord: bool, objects: Option<seq<Node>>, metadata: Option<seq<Node>>, n: nat,
    n1: nat, n2: nat, after: seq<DmdSec>, p: Parts)
    requires PlacedAt(db, base, sipRecord, objects, metadata, [], n, n1, n2, after, p)
    ensures PartsRefs(p) == DmdIds(after) && NumberedFrom(after, n)
  {
    PresentRefers(db, base, "objects", objects, base + "objects", n1);
    PresentRefers(db, base, "metadata", metadata, base + "metadata", n2);
    var own := PackageSecs(sipRecord, n);
    var o := DescribedIfPresent(db, base, "objects", objects, base + "objects", n1);
    var e := DescribedIfPresent(db, base, "metadata", metadata, base + "metadata", n2);
    assert [] + own == own;
    NumberedConcat(own, o.secs, n);
    NumberedConcat(own + o.secs, e.secs, n);
    DmdIdsGrow(own + o.secs, e.secs);
    DmdIdsGrow(own, o.secs);
  }

  /** The references that the Dublin Core section replaces. */
  function Replaced(p: Parts): seq<string> {
    if p.objects == [] then p.ids else p.objects[0].dmdIds
  }

  predicate AllFound(ids: seq<string>, refs: seq<string>) {
    forall id | id in ids :: id in refs
  }

  /** Without the Dublin Core section the map refers to every section once; with it, it lacks the ones replaced. */
  lemma MapRefs(sipName: string, p: Parts, dc: Option<DmdSec>) returns (before: seq<string>, after: seq<string>)
    ensures PartsRefs(p) == before + Replaced(p) + after
    ensures DmdRefs([StructMap(sipName, p.ids, p.objects, p.metadata, dc)])
            == if dc.None? then PartsRefs(p) else before + [DmdId(dc.value.number)] + after
  {
    OneDiv(StructMap(sipName, p.ids, p.objects, p.metadata, dc));
    DivsConcat(p.objects, p.metadata);
    SeqAssoc(p.ids, DmdRefs(p.objects), DmdRefs(p.metadata));
    if p.objects == [] {
      before, after := [], DmdRefs(p.metadata);
      assert p.ids + DmdRefs([]) == p.ids && [] + p.ids == p.ids;
      if dc.Some? {
        assert [] + [DmdId(dc.value.number)] == [DmdId(dc.value.number)];
      }
    } else {
      var first, rest := p.objects[0], p.objects[1..];
      var inside := DmdRefs(first.children) + DmdRefs(rest);
      before, after := p.ids, inside + DmdRefs(p.metadata);
      ReplacedInside(p.ids, first.dmdIds, DmdRefs(first.children), DmdRefs(rest), DmdRefs(p.metadata));
      if dc.Some? {
        var id := [DmdId(dc.value.number)];
        var described := first.(dmdIds := id);
        OneDiv(described);
        DivsConcat([described], rest);
        DivsConcat([described] + rest, p.metadata);
        ReplacedInside(p.ids, id, DmdRefs(first.children), DmdRefs(rest), DmdRefs(p.metadata));
      }
    }
  }

  lemma ReplacedInside<T>(a: seq<T>, x: seq<T>, b: seq<T>, c: seq<T>, d: seq<T>)
    ensures a + (x + b + c) + d == a + x + (b + c + d)
    ensures a + ((x + b + c) + d) == a + x + (b + c + d)
  {
  }

  /** A section of the document has no reference exactly if the Dublin Core section took its place. */
  lemma SectionsReferredExactly(d: Document, doc: Doc, sipName: string, p: Parts)
    requires BuiltFrom(d, doc, sipName, p) && Sound(d)
    requires PartsRefs(p) == DmdIds(doc.dmdSecs)
    ensures d.dc.None? ==> DmdRefs([d.structMap]) == DmdIds(d.dmdSecs)
    ensures AllFound(DmdIds(d.AllDmdSecs()), DmdRefs([d.structMap])) <==> d.dc.None? || Replaced(p) == []
  {
    var before, after := MapRefs(sipName, p, d.dc);
    if d.dc.Some? {
      var dcId := DmdId(d.dc.value.number);
      DmdIdsGrow(d.dmdSecs, [d.dc.value]);
      assert DmdIds([d.dc.value]) == [dcId];
      IdsDistinct(d);
      FoundExactly(before, Replaced(p), after, dcId);
    }
  }

  lemma IdsDistinct(d: Document)
    requires Sound(d)
    ensures Distinct(DmdIds(d.AllDmdSecs()))
  {
    var ids, all := DmdIds(d.AllDmdSecs()), CounterIds(d.AllDmdSecs(), d.amdSecs);
    forall i, j | 0 <= i < j < |ids| ensures ids[i] != ids[j] {
      assert ids[i] == all[i] && ids[j] == all[j];
    }
  }

  lemma FoundExactly(before: seq<string>, gone: seq<string>, after: seq<string>, id: string)
    requires Distinct(before + gone + after + [id])
    ensures AllFound(before + gone + after + [id], before + [id] + after) <==> gone == []
  {
    var ids := before + gone + after + [id];
    if gone != [] {
      assert ids[|before|] == gone[0] && gone[0] in ids;
      forall i | 0 <= i < |before| ensures before[i] != gone[0] {
        assert ids[i] == before[i];
      }
      forall i | 0 <= i < |after| ensures after[i] != gone[0] {
        assert ids[|before| + |gone| + i] == after[i];
      }
      assert ids[|ids| - 1] == id;
      assert gone[0] !in before + [id] + after;
    }
  }

  /** The sections of the objects directory itself, or of the package when there is none; n is the counter at the
      start. */
  function OwnSecs(db: Database, base: string, sipRecord: bool, objects: Option<seq<Node>>, n: nat): seq<DmdSec> {
    var package := PackageSecs(sipRecord, n);
    if objects.Some? then DirectorySecs(db, base, base + "objects", n + |package|) else package
  }

  lemma ReplacedExactly(
    db: Database, base: string, sipRecord: bool, objects: Option<seq<Node>>, metadata: Option<seq<Node>>,
    before: seq<DmdSec>, n: nat, n1: nat, n2: nat, after: seq<DmdSec>, p: Parts)
    requires PlacedAt(db, base, sipRecord, objects, metadata, before, n, n1, n2, after, p)
    ensures Replaced(p) == DmdIds(OwnSecs(db, base, sipRecord, objects, n))
  {
    if objects.Some? {
      assert n1 == n + |PackageSecs(sipRecord, n)|;
      OwnDiv(db, base, "objects", objects, base + "objects", n1);
    }
  }

  lemma OwnDiv(db: Database, base: string, name: string, dir: Option<seq<Node>>, path: string, n: nat)
    requires dir.Some?
    ensures var divs := DescribedIfPresent(db, base, name, dir, path, n).divs;
            divs != [] && divs[0].dmdIds == DmdIds(DirectorySecs(db, base, path, n))
  {
    var own := DirectorySecs(db, base, path, n);
    var inner := EntriesRefer(db, base, dir.value, path, n + |own|);
    DirectoryDescribed(db, base, name, dir.value, path, n, own, inner);
  }

  lemma NoIds(secs: seq<DmdSec>)
    ensures DmdIds(secs) == [] <==> secs == []
  {
    if secs != [] {
      var rest, last := secs[..|secs| - 1], [secs[|secs| - 1]];
      assert secs == rest + last && last[..0] == [];
      DmdIdsGrow(rest, last);
    }
  }

  /** The section of the package comes first, if it has a record; without directories to walk there is no other. */
  predicate PackageFirst(
    secs: seq<DmdSec>, sipRecord: bool, objects: Option<seq<Node>>, metadata: Option<seq<Node>>, n: nat)
  {
    && (sipRecord ==> secs != [] && secs[0] == DmdSec(n + 1, PremisObject, []))
    && (objects.None? && metadata.None? ==> |secs| == if sipRecord then 1 else 0)
  }

  /** The sections have consecutive numbers, that of the package's own record first. Every section of a new document
      is referred to exactly if the Dublin Core section, if there is one, replaces no reference of the objects
      directory or the package; without it, the map refers to each section once, in order. */
  ghost predicate DescriptiveUsed(
    d: Document, db: Database, base: string, sipRecord: bool, objects: Option<seq<Node>>,
    metadata: Option<seq<Node>>, n: nat)
  {
    && NumberedFrom(d.dmdSecs, n) && PackageFirst(d.dmdSecs, sipRecord, objects, metadata, n)
    && (d.dc.None? ==> DmdRefs([d.structMap]) == DmdIds(d.dmdSecs))
    && (AllFound(DmdIds(d.AllDmdSecs()), DmdRefs([d.structMap]))
        <==> d.dc.None? || OwnSecs(db, base, sipRecord, objects, n) == [])
  }

  lemma PartsFollow(
    db: Database, base: string, sipRecord: bool, objects: Option<seq<Node>>, metadata: Option<seq<Node>>, n: nat,
    n1: nat, n2: nat, after: seq<DmdSec>, p: Parts)
    requires PlacedAt(db, base, sipRecord, objects, metadata, [], n, n1, n2, after, p)
    ensures PackageFirst(after, sipRecord, objects, metadata, n)
  {
    var own := PackageSecs(sipRecord, n);
    assert |after| >= |own| && after[..|own|] == own;
  }

  lemma DescriptiveUsedAnew(
    db: Database, base: string, sipName: string, sipRecord: bool, objects: Option<seq<Node>>,
    metadata: Option<seq<Node>>, n: nat, now: Doc, d: Document, p: Parts)
    requires InPlace(db, base, sipRecord, objects, metadata, [], n, now.dmdSecs, p)
    requires Sound(d) && BuiltFrom(d, now, sipName, p)
    ensures DescriptiveUsed(d, db, base, sipRecord, objects, metadata, n)
  {
    var n1, n2 :| PlacedAt(db, base, sipRecord, objects, metadata, [], n, n1, n2, now.dmdSecs, p);
    PartsRefer(db, base, sipRecord, objects, metadata, n, n1, n2, now.dmdSecs, p);
    PartsFollow(db, base, sipRecord, objects, metadata, n, n1, n2, now.dmdSecs, p);
    ReplacedExactly(db, base, sipRecord, objects, metadata, [], n, n1, n2, now.dmdSecs, p);
    NoIds(OwnSecs(db, base, sipRecord, objects, n));
    SectionsReferredExactly(d, now, sipName, p);
  }
}
