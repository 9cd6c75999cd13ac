/** The METS builder: file section, structural map, metadata sections and their identifiers
    (worker/worker/clientScripts/create_mets_v2.py). */
module Mets {
  import opened Text
  import opened DirTree

  // ---------------------------------------------------------------- database records

  /** A File record of the SIP. source is the file a derivative comes from, or the original a service
      copy belongs to, when the query finds exactly one; rights and provenance count the rights
      statements and the events and agents of the file. */
  datatype FileRow = FileRow(
    uuid: string, use: string, title: string, groupUuid: Option<string>, originalLocation: string,
    source: Option<string>, rights: nat, provenance: nat)

  /** One column of metadata.csv for a file or directory. */
  datatype Field = Field(key: string, values: seq<string>)

  /** files by currentlocation, directories by currentlocation, metadata.csv by path. */
  datatype Database = Database(files: map<string, FileRow>, directories: set<string>, csv: map<string, seq<Field>>)

  const SIP_DIR_VAR := "%SIPDirectory%"

  const USES: seq<string> := [
    "original", "submissionDocumentation", "preservation", "service", "access", "license", "text/ocr", "metadata",
    "derivative"]

  // ---------------------------------------------------------------- what one file contributes

  datatype Grouping = Grouping(groupId: string, use: string, described: bool)

  /** GROUPID, final fileGrp use, and whether metadata.csv is consulted; None where the script raises. */
  function GroupingOf(row: FileRow): Option<Grouping> {
    if row.groupUuid.Some? && row.groupUuid.value != "" then
      Some(Grouping(
        "Group-" + row.groupUuid.value, if row.use == "TRIM file metadata" then "metadata" else row.use, false))
    else if row.use in {"original", "submissionDocumentation", "metadata", "maildirFile"} then
      var use := if row.use == "maildirFile" then "original" else row.use;
      Some(Grouping("Group-" + row.uuid, use, use == "original"))
    else if row.use in {"preservation", "text/ocr", "derivative", "service"} then
      if row.source.Some? then Some(Grouping("Group-" + row.source.value, row.use, false)) else None
    else if row.use == "TRIM container metadata" then
      Some(Grouping("Group-" + row.uuid, "metadata", false))
    else
      Some(Grouping("", row.use, false))
  }

  /** A mets:file; admId is its ADMID attribute. */
  datatype FileElem = FileElem(id: string, groupId: string, href: string, admId: Option<string>)

  /** A mets:div; dmdIds are the tokens of its DMDID attribute, fptrs the FILEIDs of its mets:fptr children. */
  datatype Div = Div(title: string, isDir: bool, dmdIds: seq<string>, fptrs: seq<string>, children: seq<Div>)

  /** A file element, the group it is filed in and the record it comes from. */
  datatype Filed = Filed(use: string, file: FileElem, row: FileRow)

  /** What a walk adds to the document, leaving aside the metadata sections; unfiled counts the
      pointers whose file has no known fileGrp use. */
  datatype Walked = Walked(divs: seq<Div>, filed: seq<Filed>, errors: nat, unfiled: nat)

  const NOTHING := Walked([], [], 0, 0)

  function FileId(row: FileRow): string {
    "file-" + row.uuid
  }

  function Relative(base: string, path: string): string {
    ReplaceFirst(path, base, "")
  }

  function Location(base: string, path: string): string {
    ReplaceFirst(path, base, SIP_DIR_VAR)
  }

  function Plus(a: Walked, b: Walked): Walked {
    Walked(a.divs + b.divs, a.filed + b.filed, a.errors + b.errors, a.unfiled + b.unfiled)
  }

  function Then(a: Walked, b: Option<Walked>): Option<Walked> {
    match b
    case None => None
    case Some(w) => Some(Plus(a, w))
  }

  function WalkFile(db: Database, base: string, name: string, path: string): Option<Walked> {
    if Location(base, path) !in db.files then Some(Walked([], [], 1, 0))
    else
      var row := db.files[Location(base, path)];
      match GroupingOf(row)
      case None => None
      case Some(g) =>
        var div := Div(if row.title == "" then name else row.title, false, [], [FileId(row)], []);
        Some(Classified(row, g.groupId, g.use, Relative(base, path)).(divs := [div]))
  }

  /** An unknown group and an unknown use are errors; only files of a known use are filed. */
  function Classified(row: FileRow, groupId: string, use: string, href: string): Walked {
    var ungrouped := if groupId == "" then 1 else 0;
    if use in USES then Walked([], [Filed(use, FileElem(FileId(row), groupId, href, None), row)], ungrouped, 0)
    else Walked([], [], ungrouped + 1, 1)
  }

  /** Everything below one directory, in listing order. */
  function Walk(db: Database, base: string, entries: seq<Node>, at: string): Option<Walked>
    decreases entries, 0
  {
    if entries == [] then Some(NOTHING)
    else
      match WalkNode(db, base, entries[0], at)
      case None => None
      case Some(first) => Then(first, Walk(db, base, entries[1..], at))
  }

  function WalkNode(db: Database, base: string, node: Node, at: string): Option<Walked>
    decreases node, 1
  {
    var path := Below(at, node.name);
    match node
    case File(_, _) => WalkFile(db, base, node.name, path)
    case Dir(_, entries) =>
      match Walk(db, base, entries, path)
      case None => None
      case Some(w) => Some(Walked([Div(node.name, true, [], [], w.divs)], w.filed, w.errors, w.unfiled))
  }

  // ---------------------------------------------------------------- references and identifiers

  function Fptrs(divs: seq<Div>): seq<string> {
    if divs == [] then [] else divs[0].fptrs + Fptrs(divs[0].children) + Fptrs(divs[1..])
  }

  function Ids(filed: seq<Filed>): seq<string> {
    if filed == [] then [] else [filed[0].file.id] + Ids(filed[1..])
  }

  lemma {:induction false} FptrsConcat(a: seq<Div>, b: seq<Div>)
    ensures Fptrs(a + b) == Fptrs(a) + Fptrs(b)
  {
    if a == [] {
      assert a + b == b;
    } else {
      assert (a + b)[1..] == a[1..] + b;
      FptrsConcat(a[1..], b);
    }
  }

  lemma {:induction false} IdsConcat(a: seq<Filed>, b: seq<Filed>)
    ensures Ids(a + b) == Ids(a) + Ids(b)
  {
    if a == [] {
      assert a + b == b;
    } else {
      assert (a + b)[1..] == a[1..] + b;
      IdsConcat(a[1..], b);
    }
  }

  /** The files filed are the files pointed at, in the same order, exactly when every use met is a known
      one; each pointer left without a file has raised an error. */
  lemma {:induction false} PointersAreFiled(db: Database, base: string, entries: seq<Node>, at: string)
    requires Walk(db, base, entries, at).Some?
    ensures var w := Walk(db, base, entries, at).value;
            && |Fptrs(w.divs)| == |Ids(w.filed)| + w.unfiled && w.unfiled <= w.errors
            && multiset(Ids(w.filed)) <= multiset(Fptrs(w.divs))
            && (w.unfiled == 0 <==> Ids(w.filed) == Fptrs(w.divs))
            && (forall f | f in w.filed :: f.use in USES)
    decreases entries, 0
  {
    if entries != [] {
      PointersAreFiledBelow(db, base, entries[0], at);
      PointersAreFiled(db, base, entries[1..], at);
      var a, b := WalkNode(db, base, entries[0], at).value, Walk(db, base, entries[1..], at).value;
      FptrsConcat(a.divs, b.divs);
      IdsConcat(a.filed, b.filed);
    }
  }

  lemma {:induction false} PointersAreFiledBelow(db: Database, base: string, node: Node, at: string)
    requires WalkNode(db, base, node, at).Some?
    ensures var w := WalkNode(db, base, node, at).value;
            && |Fptrs(w.divs)| == |Ids(w.filed)| + w.unfiled && w.unfiled <= w.errors
            && multiset(Ids(w.filed)) <= multiset(Fptrs(w.divs))
            && (w.unfiled == 0 <==> Ids(w.filed) == Fptrs(w.divs))
            && (forall f | f in w.filed :: f.use in USES)
    decreases node, 1
  {
    if node.Dir? {
      PointersAreFiled(db, base, node.entries, Below(at, node.name));
    }
    var w := WalkNode(db, base, node, at).value;
    if w.divs != [] {
      assert w.divs[1..] == [];
      assert Fptrs(w.divs) == w.divs[0].fptrs + Fptrs(w.divs[0].children);
    }
  }

  /** The file identifiers behind a walk's listing. */
  function Listed(db: Database, base: string, listing: seq<(string, bool)>): seq<string> {
    if listing == [] then []
    else
      (if !listing[0].1 && Location(base, listing[0].0) in db.files
       then [FileId(db.files[Location(base, listing[0].0)])] else [])
      + Listed(db, base, listing[1..])
  }

  lemma {:induction false} ListedConcat(db: Database, base: string, a: seq<(string, bool)>, b: seq<(string, bool)>)
    ensures Listed(db, base, a + b) == Listed(db, base, a) + Listed(db, base, b)
  {
    if a == [] {
      assert a + b == b;
    } else {
      assert (a + b)[1..] == a[1..] + b;
      ListedConcat(db, base, a[1..], b);
    }
  }

  /** The pointers name the recorded files of the tree in walk order, each once. */
  lemma {:induction false} PointersFollowTheTree(db: Database, base: string, entries: seq<Node>, at: string)
    requires Walk(db, base, entries, at).Some?
    ensures Fptrs(Walk(db, base, entries, at).value.divs) == Listed(db, base, Listing(entries, at))
    decreases entries, 0
  {
    if entries != [] {
      PointersFollowTheNode(db, base, entries[0], at);
      PointersFollowTheTree(db, base, entries[1..], at);
      FptrsConcat(WalkNode(db, base, entries[0], at).value.divs, Walk(db, base, entries[1..], at).value.divs);
      ListedConcat(db, base, NodeListing(entries[0], at), Listing(entries[1..], at));
    }
  }

  lemma {:induction false} PointersFollowTheNode(db: Database, base: string, node: Node, at: string)
    requires WalkNode(db, base, node, at).Some?
    ensures Fptrs(WalkNode(db, base, node, at).value.divs) == Listed(db, base, NodeListing(node, at))
    decreases node, 1
  {
    var path := Below(at, node.name);
    if node.Dir? {
      PointersFollowTheTree(db, base, node.entries, path);
      ListedConcat(db, base, [(path, true)], Listing(node.entries, path));
    } else {
      ListedConcat(db, base, [(path, false)], []);
    }
    var w := WalkNode(db, base, node, at).value;
    if w.divs != [] {
      assert w.divs[1..] == [];
      assert Fptrs(w.divs) == w.divs[0].fptrs + Fptrs(w.divs[0].children);
    }
  }

  /** The primary key of the File table. */
  ghost predicate UniqueUuids(db: Database) {
    forall p, q | p in db.files && q in db.files && p != q :: db.files[p].uuid != db.files[q].uuid
  }

  lemma {:induction false} ListedDistinct(db: Database, base: string, listing: seq<(string, bool)>)
    requires UniqueUuids(db) && PathsDistinct(listing)
    requires forall i | 0 <= i < |listing| :: IsPrefix(base, listing[i].0)
    ensures Distinct(Listed(db, base, listing))
    ensures forall id | id in Listed(db, base, listing) :: IdOfOne(db, base, listing, id)
  {
    if listing != [] {
      var rest := listing[1..];
      ListedDistinct(db, base, rest);
      forall id | id in Listed(db, base, rest)
        ensures IdOfOne(db, base, listing, id)
        ensures Location(base, listing[0].0) in db.files ==> id != FileId(db.files[Location(base, listing[0].0)])
      {
        assert IdOfOne(db, base, rest, id);
        var i :| 0 <= i < |rest| && Location(base, rest[i].0) in db.files
          && id == FileId(db.files[Location(base, rest[i].0)]);
        assert listing[i + 1] == rest[i];
        LocationInjective(base, listing[0].0, rest[i].0);
        if Location(base, listing[0].0) in db.files {
          FileIdInjective(db.files[Location(base, listing[0].0)], db.files[Location(base, rest[i].0)]);
        }
      }
      if !listing[0].1 && Location(base, listing[0].0) in db.files {
        assert IdOfOne(db, base, listing, FileId(db.files[Location(base, listing[0].0)]));
      }
    }
  }

  ghost predicate IdOfOne(db: Database, base: string, listing: seq<(string, bool)>, id: string) {
    exists i :: 0 <= i < |listing| && Location(base, listing[i].0) in db.files
      && id == FileId(db.files[Location(base, listing[i].0)])
  }

  lemma FileIdInjective(a: FileRow, b: FileRow)
    ensures FileId(a) == FileId(b) ==> a.uuid == b.uuid
  {
    assert FileId(a)[5..] == a.uuid && FileId(b)[5..] == b.uuid;
  }

  lemma LocationInjective(base: string, p: string, q: string)
    requires IsPrefix(base, p) && IsPrefix(base, q)
    ensures Location(base, p) == Location(base, q) ==> p == q
  {
    var a, b := p[|base|..], q[|base|..];
    assert p == base + a && q == base + b;
    assert (SIP_DIR_VAR + a)[|SIP_DIR_VAR|..] == a && (SIP_DIR_VAR + b)[|SIP_DIR_VAR|..] == b;
  }
}
