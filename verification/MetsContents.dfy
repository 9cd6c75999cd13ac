/** What a finished METS document holds of the package: its files, its divs and the errors counted, said of the
    database records alone (worker/worker/clientScripts/create_mets_v2.py). */
module MetsContents {
  import opened Text
  import opened DirTree
  import opened Mets
  import opened MetsFiles
  import opened MetsBuilder
  import opened FileReferences
  import opened FileSec
  import opened MetsDocument

  /** Both walked directories as the entries of the package directory. */
  function PackageEntries(objects: Option<seq<Node>>, metadata: Option<seq<Node>>): seq<Node> {
    (if objects.Some? then [Dir("objects", objects.value)] else [])
    + if metadata.Some? then [Dir("metadata", metadata.value)] else []
  }

  lemma WalkCons(db: Database, base: string, node: Node, rest: seq<Node>, at: string)
    ensures Walk(db, base, [node] + rest, at)
            == match WalkNode(db, base, node, at)
               case None => None
               case Some(first) => Then(first, Walk(db, base, rest, at))
  {
    assert ([node] + rest)[1..] == rest && ([node] + rest)[0] == node;
  }

  /** The walk of a directory that may be absent, as the first part of a walk. */
  function FirstOf(name: string, dir: Option<seq<Node>>, w: Walked): Walked {
    Walked(DirDiv(name, dir, w), w.filed, w.errors, w.unfiled)
  }

  lemma OneDirectory(db: Database, root: string, name: string, dir: Option<seq<Node>>, rest: seq<Node>)
    ensures var first := WalkIfPresent(db, root + "/", dir, Below(root, name));
            var entries := if dir.Some? then [Dir(name, dir.value)] else [];
            && (first.None? ==> Walk(db, root + "/", entries + rest, root) == None)
            && (first.Some? ==>
                  Walk(db, root + "/", entries + rest, root)
                  == Then(FirstOf(name, dir, first.value), Walk(db, root + "/", rest, root)))
  {
    if dir.Some? {
      WalkCons(db, root + "/", Dir(name, dir.value), rest, root);
    } else {
      assert [] + rest == rest;
      ThenNothing(Walk(db, root + "/", rest, root));
    }
  }

  lemma JoinedWalks(name: string, dir: Option<seq<Node>>, w: Walked, name': string, dir': Option<seq<Node>>, v: Walked)
    ensures Then(FirstOf(name, dir, w), Then(FirstOf(name', dir', v), Some(NOTHING)))
            == Some(Walked(
                      DirDiv(name, dir, w) + DirDiv(name', dir', v), w.filed + v.filed, w.errors + v.errors,
                      w.unfiled + v.unfiled))
  {
    assert DirDiv(name', dir', v) + [] == DirDiv(name', dir', v) && v.filed + [] == v.filed;
  }

  /** The two walks are one walk of the package directory. */
  lemma PackageWalk(db: Database, root: string, objects: Option<seq<Node>>, metadata: Option<seq<Node>>)
    ensures var first := WalkIfPresent(db, root + "/", objects, Below(root, "objects"));
            var second := WalkIfPresent(db, root + "/", metadata, Below(root, "metadata"));
            var whole := Walk(db, root + "/", PackageEntries(objects, metadata), root);
            && (whole.Some? <==> first.Some? && second.Some?)
            && (whole.Some? ==>
                  var w, v := first.value, second.value;
                  whole.value == Walked(
                                   DirDiv("objects", objects, w) + DirDiv("metadata", metadata, v),
                                   w.filed + v.filed, w.errors + v.errors, w.unfiled + v.unfiled))
  {
    var rest := if metadata.Some? then [Dir("metadata", metadata.value)] else [];
    OneDirectory(db, root, "objects", objects, rest);
    OneDirectory(db, root, "metadata", metadata, []);
    assert rest + [] == rest;
    var first := WalkIfPresent(db, root + "/", objects, Below(root, "objects"));
    var second := WalkIfPresent(db, root + "/", metadata, Below(root, "metadata"));
    if first.Some? && second.Some? {
      JoinedWalks("objects", objects, first.value, "metadata", metadata, second.value);
    }
  }

  // ---------------------------------------------------------------- the file section

  lemma {:induction false} OfUseHolds(filed: seq<Filed>, use: string, g: FileElem)
    ensures g in OfUse(filed, use) <==> exists f :: f in filed && f.use == use && f.file == g
  {
    if filed != [] {
      OfUseHolds(filed[1..], use, g);
      assert filed == [filed[0]] + filed[1..];
      if exists f :: f in filed && f.use == use && f.file == g {
        var f :| f in filed && f.use == use && f.file == g;
        assert f == filed[0] || f in filed[1..];
      }
    }
  }

  lemma {:induction false} BareHolds(files: seq<FileElem>, g: FileElem)
    ensures g in Bare(files) <==> exists e :: e in files && e.(admId := None) == g
  {
    if files != [] {
      var front, last := files[..|files| - 1], files[|files| - 1];
      BareHolds(front, g);
      assert files == front + [last];
      if exists e :: e in files && e.(admId := None) == g {
        var e :| e in files && e.(admId := None) == g;
        assert e == last || e in front;
      }
    }
  }

  /** The element is that of a record of the package. */
  ghost predicate FromRecord(db: Database, base: string, listing: seq<(string, bool)>, use: string, elem: FileElem) {
    exists f :: FiledFrom(db, base, listing, f) && f.use == use && f.file == elem.(admId := None)
  }

  /** A filed file is in its group, with a section of its own if these are wanted. */
  ghost predicate InDocument(d: Document, f: Filed, includeAmdSec: bool) {
    && f.use in d.fileGrps
    && if includeAmdSec then exists sec :: sec in d.amdSecs && Own(f, sec, d.fileGrps)
       else exists e :: e in d.fileGrps[f.use] && e.(admId := None) == f.file
  }

  ghost predicate RecordFiled(
    d: Document, db: Database, base: string, listing: seq<(string, bool)>, i: int, includeAmdSec: bool)
    requires Found(db, base, listing, i)
  {
    exists f :: FiledAs(RowAt(db, base, listing, i), base, listing[i].0, f) && InDocument(d, f, includeAmdSec)
  }

  /** Every element of the file section is that of a record of the package, and every record with a known use has one;
      with administrative sections it refers to one that has what the record says. */
  ghost predicate FilesRight(
    d: Document, db: Database, base: string, listing: seq<(string, bool)>, includeAmdSec: bool)
  {
    && (forall use, elem | use in d.fileGrps && elem in d.fileGrps[use] :: FromRecord(db, base, listing, use, elem))
    && (forall i | MustFile(db, base, listing, i) :: RecordFiled(d, db, base, listing, i, includeAmdSec))
  }

  lemma OwnSection(d: Document, i: seq<Filed>, j: seq<Filed>, m: ObjectMetadata, f: Filed)
    requires OwnedAround(i, j, m, d.amdSecs, d.fileGrps) && f in i + j
    ensures exists sec :: sec in d.amdSecs && Own(f, sec, d.fileGrps)
  {
    var kept := if m.Kept() then 1 else 0;
    if f in i {
      var k :| 0 <= k < |i| && i[k] == f;
      assert d.amdSecs[..|i|][k] in d.amdSecs && Own(f, d.amdSecs[..|i|][k], d.fileGrps);
    } else {
      var k :| 0 <= k < |j| && j[k] == f;
      var secs := d.amdSecs[|i| + kept..];
      assert secs[k] == d.amdSecs[|i| + kept + k] && Own(f, secs[k], d.fileGrps);
    }
  }

  lemma GroupHolds(
    start: map<string, seq<FileElem>>, grps: map<string, seq<FileElem>>, filed: seq<Filed>, use: string, g: FileElem)
    requires GroupsGrow(start, grps, filed) && use in grps && start[use] == []
    ensures (exists e :: e in grps[use] && e.(admId := None) == g)
            <==> exists f :: f in filed && f.use == use && f.file == g
  {
    assert Bare(grps[use]) == Bare([]) + OfUse(filed, use) == OfUse(filed, use);
    BareHolds(grps[use], g);
    OfUseHolds(filed, use, g);
  }

  lemma DocumentFiles(
    d: Document, db: Database, base: string, listing: seq<(string, bool)>, start: map<string, seq<FileElem>>,
    i: seq<Filed>, j: seq<Filed>, m: ObjectMetadata, includeAmdSec: bool)
    requires GroupsGrow(start, d.fileGrps, i + j) && HasAllUses(start)
    requires forall use | use in start :: start[use] == []
    requires FilesHold(db, base, listing, i + j)
    requires includeAmdSec ==> OwnedAround(i, j, m, d.amdSecs, d.fileGrps)
    ensures FilesRight(d, db, base, listing, includeAmdSec)
  {
    forall use, elem | use in d.fileGrps && elem in d.fileGrps[use] ensures FromRecord(db, base, listing, use, elem) {
      GroupHolds(start, d.fileGrps, i + j, use, elem.(admId := None));
      var f :| f in i + j && f.use == use && f.file == elem.(admId := None);
      assert FiledFrom(db, base, listing, f);
    }
    forall k | MustFile(db, base, listing, k) ensures RecordFiled(d, db, base, listing, k, includeAmdSec) {
      assert IsFiled(db, base, listing, k, i + j);
      var f :| f in i + j && FiledAs(RowAt(db, base, listing, k), base, listing[k].0, f);
      FileInDocument(d, start, i, j, m, f, includeAmdSec);
    }
  }

  lemma FileInDocument(
    d: Document, start: map<string, seq<FileElem>>, i: seq<Filed>, j: seq<Filed>, m: ObjectMetadata, f: Filed,
    includeAmdSec: bool)
    requires GroupsGrow(start, d.fileGrps, i + j) && HasAllUses(start) && f in i + j && KnownUse(f.use)
    requires forall use | use in start :: start[use] == []
    requires includeAmdSec ==> OwnedAround(i, j, m, d.amdSecs, d.fileGrps)
    ensures InDocument(d, f, includeAmdSec)
  {
    assert f.use in USES && f.use in start;
    GroupHolds(start, d.fileGrps, i + j, f.use, f.file);
    if includeAmdSec {
      OwnSection(d, i, j, m, f);
    }
  }

  // ---------------------------------------------------------------- the whole document

  /** The document against the package: its files, its divs and the errors counted; a record without its source is met
      nowhere. */
  ghost predicate Describes(
    d: Document, errors: nat, db: Database, root: string, sipName: string, entries: seq<Node>, includeAmdSec: bool)
  {
    var base, listing := root + "/", Listing(entries, root);
    && FilesRight(d, db, base, listing, includeAmdSec)
    && errors == Faults(db, base, listing)
    && d.structMap.title == sipName && d.structMap.isDir && d.structMap.fptrs == []
    && Mirrors(db, base, entries, root, BareDivs(d.structMap.children))
  }

  lemma PackageDescribed(
    d: Document, errors: nat, db: Database, root: string, sipName: string, objects: Option<seq<Node>>,
    metadata: Option<seq<Node>>, start: map<string, seq<FileElem>>, m: ObjectMetadata, includeAmdSec: bool)
    requires WalkIfPresent(db, root + "/", objects, Below(root, "objects")).Some?
    requires WalkIfPresent(db, root + "/", metadata, Below(root, "metadata")).Some?
    requires var w := WalkIfPresent(db, root + "/", objects, Below(root, "objects")).value;
             var v := WalkIfPresent(db, root + "/", metadata, Below(root, "metadata")).value;
             && GroupsGrow(start, d.fileGrps, w.filed + v.filed) && errors == w.errors + v.errors
             && (includeAmdSec ==> OwnedAround(w.filed, v.filed, m, d.amdSecs, d.fileGrps))
             && BareDivs([d.structMap])
                == [Div(sipName, true, [], [], DirDiv("objects", objects, w) + DirDiv("metadata", metadata, v))]
    requires HasAllUses(start) && forall use | use in start :: start[use] == []
    ensures Describes(d, errors, db, root, sipName, PackageEntries(objects, metadata), includeAmdSec)
  {
    var w := WalkIfPresent(db, root + "/", objects, Below(root, "objects")).value;
    var v := WalkIfPresent(db, root + "/", metadata, Below(root, "metadata")).value;
    var entries := PackageEntries(objects, metadata);
    PackageWalk(db, root, objects, metadata);
    WalkFiles(db, root + "/", entries, root);
    WalkErrors(db, root + "/", entries, root);
    WalkMirrors(db, root + "/", entries, root);
    OneDiv(d.structMap);
    DocumentFiles(d, db, root + "/", Listing(entries, root), start, w.filed, v.filed, m, includeAmdSec);
  }
}
