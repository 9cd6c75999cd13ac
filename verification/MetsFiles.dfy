/** The files of the METS file section and the divs of its structural map, said of the database records alone
    (worker/worker/clientScripts/create_mets_v2.py). */
module MetsFiles {
  import opened Text
  import opened DirTree
  import opened Mets

  // ---------------------------------------------------------------- one record

  predicate Grouped(row: FileRow) {
    row.groupUuid.Some? && row.groupUuid.value != ""
  }

  /** Files that are a group of their own. */
  predicate OwnGroup(row: FileRow) {
    !Grouped(row)
    && row.use in {"original", "submissionDocumentation", "metadata", "maildirFile", "TRIM container metadata"}
  }

  /** Files that belong to the group of another. */
  predicate Derived(row: FileRow) {
    !Grouped(row) && row.use in {"preservation", "text/ocr", "derivative", "service"}
  }

  /** GROUPID: determined elsewhere, or the file's own, or that of the file it comes from; all others have none. */
  predicate GroupIs(row: FileRow, groupId: string) {
    && (Grouped(row) ==> groupId == "Group-" + row.groupUuid.value)
    && (OwnGroup(row) ==> groupId == "Group-" + row.uuid)
    && (Derived(row) ==> row.source.Some? && groupId == "Group-" + row.source.value)
    && (!Grouped(row) && !OwnGroup(row) && !Derived(row) ==> groupId == "")
  }

  /** Three uses are filed under another name. */
  predicate UseIs(row: FileRow, use: string) {
    if Grouped(row) then use == if row.use == "TRIM file metadata" then "metadata" else row.use
    else if row.use == "maildirFile" then use == "original"
    else if row.use == "TRIM container metadata" then use == "metadata"
    else use == row.use
  }

  predicate KnownUse(use: string) {
    use in {"original", "submissionDocumentation", "preservation", "service", "access", "license", "text/ocr",
            "metadata", "derivative"}
  }

  lemma GroupingIs(row: FileRow)
    ensures GroupingOf(row).None? <==> Derived(row) && row.source.None?
    ensures GroupingOf(row).Some? ==>
              var g := GroupingOf(row).value;
              && GroupIs(row, g.groupId) && UseIs(row, g.use)
              && (g.use in USES <==> KnownUse(g.use))
              && (g.described <==> OwnGroup(row) && UseIs(row, "original"))
  {
  }

  /** The location under which the database has a file of the package. */
  lemma LocationIs(base: string, rest: string)
    ensures Location(base, base + rest) == "%SIPDirectory%" + rest
  {
    assert (base + rest)[..|base|] == base && (base + rest)[|base|..] == rest;
  }

  /** What the file section holds of a record found under a path. */
  predicate FiledAs(row: FileRow, base: string, path: string, f: Filed) {
    && f.row == row && f.file.id == "file-" + row.uuid && f.file.admId == None
    && (IsPrefix(base, path) ==> f.file.href == path[|base|..])
    && GroupIs(row, f.file.groupId) && UseIs(row, f.use) && KnownUse(f.use)
  }

  /** A path of the walk that is a file with a record. */
  predicate Found(db: Database, base: string, listing: seq<(string, bool)>, i: int) {
    0 <= i < |listing| && !listing[i].1 && Location(base, listing[i].0) in db.files
  }

  function RowAt(db: Database, base: string, listing: seq<(string, bool)>, i: int): FileRow
    requires Found(db, base, listing, i)
  {
    db.files[Location(base, listing[i].0)]
  }

  ghost predicate FiledFrom(db: Database, base: string, listing: seq<(string, bool)>, f: Filed) {
    exists i :: Found(db, base, listing, i) && FiledAs(RowAt(db, base, listing, i), base, listing[i].0, f)
  }

  /** The record has a known use, so it must be filed. */
  ghost predicate MustFile(db: Database, base: string, listing: seq<(string, bool)>, i: int) {
    Found(db, base, listing, i) && exists use :: UseIs(RowAt(db, base, listing, i), use) && KnownUse(use)
  }

  ghost predicate IsFiled(db: Database, base: string, listing: seq<(string, bool)>, i: int, filed: seq<Filed>)
    requires Found(db, base, listing, i)
  {
    exists f :: f in filed && FiledAs(RowAt(db, base, listing, i), base, listing[i].0, f)
  }

  ghost predicate FilesHold(db: Database, base: string, listing: seq<(string, bool)>, filed: seq<Filed>) {
    && (forall f | f in filed :: FiledFrom(db, base, listing, f))
    && (forall i | MustFile(db, base, listing, i) :: IsFiled(db, base, listing, i, filed))
  }

  lemma FoundConcat(db: Database, base: string, a: seq<(string, bool)>, b: seq<(string, bool)>, i: int)
    ensures Found(db, base, a + b, i) <==> Found(db, base, a, i) || Found(db, base, b, i - |a|)
    ensures Found(db, base, a, i) ==> RowAt(db, base, a + b, i) == RowAt(db, base, a, i) && (a + b)[i] == a[i]
    ensures Found(db, base, b, i - |a|) ==>
              RowAt(db, base, a + b, i) == RowAt(db, base, b, i - |a|) && (a + b)[i] == b[i - |a|]
  {
  }

  lemma FromConcat(db: Database, base: string, a: seq<(string, bool)>, b: seq<(string, bool)>, f: Filed)
    ensures FiledFrom(db, base, a, f) || FiledFrom(db, base, b, f) ==> FiledFrom(db, base, a + b, f)
  {
    if FiledFrom(db, base, a, f) {
      var i :| Found(db, base, a, i) && FiledAs(RowAt(db, base, a, i), base, a[i].0, f);
      FoundConcat(db, base, a, b, i);
    } else if FiledFrom(db, base, b, f) {
      var i :| Found(db, base, b, i) && FiledAs(RowAt(db, base, b, i), base, b[i].0, f);
      FoundConcat(db, base, a, b, |a| + i);
      assert Found(db, base, a + b, |a| + i);
    }
  }

  lemma FilesHoldConcat(
    db: Database, base: string, a: seq<(string, bool)>, b: seq<(string, bool)>, c: seq<Filed>, d: seq<Filed>)
    requires FilesHold(db, base, a, c) && FilesHold(db, base, b, d)
    ensures FilesHold(db, base, a + b, c + d)
  {
    forall f | f in c + d ensures FiledFrom(db, base, a + b, f) {
      FromConcat(db, base, a, b, f);
    }
    forall i | MustFile(db, base, a + b, i) ensures IsFiled(db, base, a + b, i, c + d) {
      FoundConcat(db, base, a, b, i);
      if Found(db, base, a, i) {
        assert IsFiled(db, base, a, i, c);
      } else {
        assert IsFiled(db, base, b, i - |a|, d);
      }
    }
  }

  lemma {:induction false} ReplacedPrefix(path: string, base: string)
    requires IsPrefix(base, path)
    ensures Relative(base, path) == path[|base|..]
  {
    assert "" + path[|base|..] == path[|base|..];
  }

  lemma FileHolds(db: Database, base: string, name: string, path: string)
    requires WalkFile(db, base, name, path).Some?
    ensures FilesHold(db, base, [(path, false)], WalkFile(db, base, name, path).value.filed)
  {
    var listing, w := [(path, false)], WalkFile(db, base, name, path).value;
    if Location(base, path) in db.files {
      var row := db.files[Location(base, path)];
      GroupingIs(row);
      if IsPrefix(base, path) {
        ReplacedPrefix(path, base);
      }
      assert forall i | Found(db, base, listing, i) :: i == 0;
      assert Found(db, base, listing, 0) && RowAt(db, base, listing, 0) == row;
      if w.filed != [] {
        assert FiledAs(row, base, path, w.filed[0]) && w.filed[0] in w.filed;
      }
    }
  }

  /** The files of the file section are exactly those of the tree that have a record with a known use, each with the
      identifier, the group, the use and the path that its record gives it. */
  lemma {:induction false} WalkFiles(db: Database, base: string, entries: seq<Node>, at: string)
    requires Walk(db, base, entries, at).Some?
    ensures FilesHold(db, base, Listing(entries, at), Walk(db, base, entries, at).value.filed)
    decreases entries, 0
  {
    if entries != [] {
      NodeFiles(db, base, entries[0], at);
      WalkFiles(db, base, entries[1..], at);
      FilesHoldConcat(
        db, base, NodeListing(entries[0], at), Listing(entries[1..], at),
        WalkNode(db, base, entries[0], at).value.filed, Walk(db, base, entries[1..], at).value.filed);
    }
  }

  lemma {:induction false} NodeFiles(db: Database, base: string, node: Node, at: string)
    requires WalkNode(db, base, node, at).Some?
    ensures FilesHold(db, base, NodeListing(node, at), WalkNode(db, base, node, at).value.filed)
    decreases node, 1
  {
    var path := Below(at, node.name);
    if node.Dir? {
      WalkFiles(db, base, node.entries, path);
      var inner := Walk(db, base, node.entries, path).value.filed;
      FilesHoldConcat(db, base, [(path, true)], Listing(node.entries, path), [], inner);
      assert [] + inner == inner;
    } else {
      FileHolds(db, base, node.name, path);
      assert [(path, false)] + [] == [(path, false)];
    }
  }

  // ---------------------------------------------------------------- groups

  /** A derived file is in the group of the file it comes from, if that one is a group of its own. */
  lemma SameGroup(
    db: Database, base: string, entries: seq<Node>, at: string, f: Filed, g: Filed)
    requires Walk(db, base, entries, at).Some?
    requires f in Walk(db, base, entries, at).value.filed && g in Walk(db, base, entries, at).value.filed
    requires Derived(f.row) && OwnGroup(g.row)
    ensures f.file.groupId == g.file.groupId <==> f.row.source == Some(g.row.uuid)
  {
    WalkFiles(db, base, entries, at);
    assert FiledFrom(db, base, Listing(entries, at), f) && FiledFrom(db, base, Listing(entries, at), g);
    SameTagged(f.row.source.value, g.row.uuid);
  }

  lemma SameTagged(a: string, b: string)
    ensures "Group-" + a == "Group-" + b <==> a == b
  {
    assert ("Group-" + a)[6..] == a && ("Group-" + b)[6..] == b;
  }

  // ---------------------------------------------------------------- errors

  /** Without a record a file is an error; with one, lacking a group and lacking a known use are one each. */
  ghost function FaultsAt(db: Database, base: string, path: string): nat {
    if Location(base, path) !in db.files then 1
    else
      var row := db.files[Location(base, path)];
      (if GroupIs(row, "") then 1 else 0) + if exists use :: UseIs(row, use) && KnownUse(use) then 0 else 1
  }

  ghost function Faults(db: Database, base: string, listing: seq<(string, bool)>): nat {
    if listing == [] then 0
    else (if listing[0].1 then 0 else FaultsAt(db, base, listing[0].0)) + Faults(db, base, listing[1..])
  }

  lemma {:induction false} FaultsConcat(db: Database, base: string, a: seq<(string, bool)>, b: seq<(string, bool)>)
    ensures Faults(db, base, a + b) == Faults(db, base, a) + Faults(db, base, b)
  {
    if a == [] {
      assert a + b == b;
    } else {
      assert (a + b)[1..] == a[1..] + b;
      FaultsConcat(db, base, a[1..], b);
    }
  }

  lemma FileErrors(db: Database, base: string, name: string, path: string)
    requires WalkFile(db, base, name, path).Some?
    ensures WalkFile(db, base, name, path).value.errors == FaultsAt(db, base, path)
  {
    if Location(base, path) in db.files {
      var row := db.files[Location(base, path)];
      GroupingIs(row);
      var g := GroupingOf(row).value;
      assert UseIs(row, g.use);
      assert g.groupId == "" <==> GroupIs(row, "");
    }
  }

  /** The script raises exactly at a derived file whose source cannot be found. */
  predicate Orphan(db: Database, base: string, listing: seq<(string, bool)>, i: int) {
    Found(db, base, listing, i) && Derived(RowAt(db, base, listing, i)) && RowAt(db, base, listing, i).source.None?
  }

  ghost predicate SomeOrphan(db: Database, base: string, listing: seq<(string, bool)>) {
    exists i :: Orphan(db, base, listing, i)
  }

  lemma OrphanConcat(db: Database, base: string, a: seq<(string, bool)>, b: seq<(string, bool)>)
    ensures SomeOrphan(db, base, a + b) <==> SomeOrphan(db, base, a) || SomeOrphan(db, base, b)
  {
    if i :| Orphan(db, base, a, i) {
      assert (a + b)[i] == a[i] && Orphan(db, base, a + b, i);
    }
    if i :| Orphan(db, base, b, i) {
      assert (a + b)[|a| + i] == b[i] && Orphan(db, base, a + b, |a| + i);
    }
    if i :| Orphan(db, base, a + b, i) {
      if i < |a| {
        assert (a + b)[i] == a[i] && Orphan(db, base, a, i);
      } else {
        assert (a + b)[i] == b[i - |a|] && Orphan(db, base, b, i - |a|);
      }
    }
  }

  lemma {:induction false} WalkErrors(db: Database, base: string, entries: seq<Node>, at: string)
    ensures Walk(db, base, entries, at).None? <==> SomeOrphan(db, base, Listing(entries, at))
    ensures Walk(db, base, entries, at).Some? ==>
              Walk(db, base, entries, at).value.errors == Faults(db, base, Listing(entries, at))
    decreases entries, 0
  {
    if entries != [] {
      NodeErrors(db, base, entries[0], at);
      WalkErrors(db, base, entries[1..], at);
      OrphanConcat(db, base, NodeListing(entries[0], at), Listing(entries[1..], at));
      FaultsConcat(db, base, NodeListing(entries[0], at), Listing(entries[1..], at));
    }
  }

  lemma {:induction false} NodeErrors(db: Database, base: string, node: Node, at: string)
    ensures WalkNode(db, base, node, at).None? <==> SomeOrphan(db, base, NodeListing(node, at))
    ensures WalkNode(db, base, node, at).Some? ==>
              WalkNode(db, base, node, at).value.errors == Faults(db, base, NodeListing(node, at))
    decreases node, 1
  {
    var path := Below(at, node.name);
    if node.Dir? {
      WalkErrors(db, base, node.entries, path);
      OrphanConcat(db, base, [(path, true)], Listing(node.entries, path));
      FaultsConcat(db, base, [(path, true)], Listing(node.entries, path));
      assert forall i :: !Orphan(db, base, [(path, true)], i);
      assert [(path, true)][1..] == [];
    } else {
      assert NodeListing(node, at) == [(path, false)] && [(path, false)][1..] == [];
      if Location(base, path) in db.files {
        GroupingIs(db.files[Location(base, path)]);
        assert Found(db, base, [(path, false)], 0);
      }
      if WalkNode(db, base, node, at).Some? {
        FileErrors(db, base, node.name, path);
      } else {
        assert Orphan(db, base, [(path, false)], 0);
      }
    }
  }

  // ---------------------------------------------------------------- divs

  /** The divs mirror the tree: a directory as it is, a file under its title if it has one, with its pointer, and no
      file without a record. */
  predicate Mirrors(db: Database, base: string, entries: seq<Node>, at: string, divs: seq<Div>)
    decreases entries, 0
  {
    if entries == [] then divs == []
    else
      var path := Below(at, entries[0].name);
      if entries[0].File? && Location(base, path) !in db.files then Mirrors(db, base, entries[1..], at, divs)
      else
        divs != [] && MirrorsNode(db, base, entries[0], path, divs[0]) && Mirrors(db, base, entries[1..], at, divs[1..])
  }

  predicate MirrorsNode(db: Database, base: string, node: Node, path: string, div: Div)
    decreases node, 1
  {
    match node
    case File(name, _) =>
      Location(base, path) in db.files &&
      var row := db.files[Location(base, path)];
      div == Div(if row.title != "" then row.title else name, false, [], ["file-" + row.uuid], [])
    case Dir(name, entries) =>
      && div.title == name && div.isDir && div.dmdIds == [] && div.fptrs == []
      && Mirrors(db, base, entries, path, div.children)
  }

  lemma {:induction false} WalkMirrors(db: Database, base: string, entries: seq<Node>, at: string)
    requires Walk(db, base, entries, at).Some?
    ensures Mirrors(db, base, entries, at, Walk(db, base, entries, at).value.divs)
    decreases entries
  {
    if entries != [] {
      var node, path := entries[0], Below(at, entries[0].name);
      var first, rest := WalkNode(db, base, node, at).value, Walk(db, base, entries[1..], at).value;
      if node.Dir? {
        WalkMirrors(db, base, node.entries, path);
      }
      WalkMirrors(db, base, entries[1..], at);
      if first.divs != [] {
        assert (first.divs + rest.divs)[1..] == rest.divs && (first.divs + rest.divs)[0] == first.divs[0];
      } else {
        assert first.divs + rest.divs == rest.divs;
      }
    }
  }
}
