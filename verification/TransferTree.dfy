/** The tree of file system entries of the transfer METS: built from a directory, joined with the records of the
    database, and pruned of files without a record (worker/worker/clientScripts/create_transfer_mets.py). */
module TransferTree {
  import opened Text
  import opened DirTree

  /** An entry knows its path below the root, its kind and its parent; entry 0 is the root. */
  datatype Entry = Entry(path: string, isDir: bool, parent: nat, uuid: Option<string>)

  /** All entries made, the children of each that are in the tree, and the two indexes. */
  datatype Tree = Tree(
    entries: seq<Entry>, children: seq<seq<nat>>, fileIndex: map<string, nat>, dirIndex: map<string, nat>)

  /** Where the transfer lies on disk and in the database. */
  datatype Bases = Bases(root: string, db: string)

  function Empty(root: string): Tree {
    Tree([Entry(root, true, 0, None)], [[]], map[], map[])
  }

  /** The location the database would have for a path. */
  function DbPath(b: Bases, path: string, isDir: bool): string {
    b.db + (if |b.root| < |path| then path[|b.root| + 1..] else "") + if isDir then "/" else ""
  }

  function WithEntry(t: Tree, b: Bases, path: string, isDir: bool, parent: nat): Tree {
    var id := |t.entries|;
    var t1 := t.(entries := t.entries + [Entry(path, isDir, parent, None)], children := t.children + [[]]);
    if isDir then t1.(dirIndex := t1.dirIndex[DbPath(b, path, true) := id])
    else t1.(fileIndex := t1.fileIndex[DbPath(b, path, false) := id])
  }

  function Attached(t: Tree, parent: nat, id: nat): Tree {
    if parent < |t.children| then t.(children := t.children[parent := t.children[parent] + [id]]) else t
  }

  /** build_tree, for the sorted entries of a directory: an entry is attached after what lies below it. */
  function Build(t: Tree, b: Bases, dir: seq<Node>, at: string, parent: nat): Tree
    decreases dir, 0
  {
    if dir == [] then t else Build(BuildNode(t, b, dir[0], at, parent), b, dir[1..], at, parent)
  }

  function BuildNode(t: Tree, b: Bases, node: Node, at: string, parent: nat): Tree
    decreases node, 1
  {
    var path, id := Below(at, node.name), |t.entries|;
    var t1 := WithEntry(t, b, path, node.Dir?, parent);
    Attached(if node.Dir? then Build(t1, b, node.entries, path, id) else t1, parent, id)
  }

  // ---------------------------------------------------------------- reading the database

  datatype Record = Record(location: string, uuid: string)

  /** _batch_query: the records page by page. */
  method BatchQuery(records: seq<Record>, size: nat) returns (read: seq<Record>)
    requires size > 0
    ensures read == records
  {
    read := [];
    var offset, limit := 0, size;
    while offset < |records|
      invariant limit == offset + size && read == records[..Min(offset, |records|)]
      decreases |records| - offset
    {
      var batch := records[offset..Min(limit, |records|)];
      read := read + batch;
      offset := offset + size;
      limit := limit + size;
    }
  }

  function Recorded(t: Tree, r: Record): Tree {
    if r.location in t.fileIndex && t.fileIndex[r.location] < |t.entries| then
      var id := t.fileIndex[r.location];
      t.(entries := t.entries[id := t.entries[id].(uuid := Some(r.uuid))])
    else t
  }

  function RecordedAll(t: Tree, records: seq<Record>): Tree
    decreases |records|
  {
    if records == [] then t else RecordedAll(Recorded(t, records[0]), records[1..])
  }

  // ---------------------------------------------------------------- pruning

  function Missing(t: Tree): set<string> {
    set p | p in t.fileIndex && t.fileIndex[p] < |t.entries| && t.entries[t.fileIndex[p]].uuid.None?
  }

  function Pruned(t: Tree, p: string): Tree
    requires p in t.fileIndex
  {
    var id := t.fileIndex[p];
    var t1 := t.(fileIndex := t.fileIndex - {p});
    if id < |t.entries| && t.entries[id].parent < |t.children| then
      var parent := t.entries[id].parent;
      t1.(children := t.children[parent := RemoveFirst(t.children[parent], id)])
    else t1
  }

  function PrunedAll(t: Tree, missing: seq<string>): Tree {
    if missing == [] then t
    else
      var t1, p := PrunedAll(t, missing[..|missing| - 1]), missing[|missing| - 1];
      if p in t1.fileIndex then Pruned(t1, p) else t1
  }

  // ---------------------------------------------------------------- the tree object

  class FsEntriesTree {
    const bases: Bases
    var entries: seq<Entry>
    var children: seq<seq<nat>>
    var fileIndex: map<string, nat>
    var dirIndex: map<string, nat>

    function View(): Tree
      reads this
    {
      Tree(entries, children, fileIndex, dirIndex)
    }

    constructor (bases: Bases)
      ensures this.bases == bases && View() == Empty(bases.root)
    {
      this.bases := bases;
      entries, children, fileIndex, dirIndex := [Entry(bases.root, true, 0, None)], [[]], map[], map[];
    }

    method BuildTree(dir: seq<Node>, at: string, parent: nat)
      modifies this
      ensures View() == Build(old(View()), bases, dir, at, parent)
      decreases dir, 0
    {
      if dir != [] {
        AddEntry(dir[0], at, parent);
        BuildTree(dir[1..], at, parent);
      }
    }

    method AddEntry(node: Node, at: string, parent: nat)
      modifies this
      ensures View() == BuildNode(old(View()), bases, node, at, parent)
      decreases node, 1
    {
      var path, id := Below(at, node.name), |entries|;
      entries, children := entries + [Entry(path, node.Dir?, parent, None)], children + [[]];
      if node.Dir? {
        dirIndex := dirIndex[DbPath(bases, path, true) := id];
        BuildTree(node.entries, path, id);
      } else {
        fileIndex := fileIndex[DbPath(bases, path, false) := id];
      }
      if parent < |children| {
        children := children[parent := children[parent] + [id]];
      }
    }

    method LoadFileData(records: seq<Record>, size: nat)
      requires size > 0
      modifies this`entries
      ensures View() == RecordedAll(old(View()), records)
    {
      var read := BatchQuery(records, size);
      var i := 0;
      while i < |read|
        invariant i <= |read| && RecordedAll(old(View()), read) == RecordedAll(View(), read[i..])
      {
        assert read[i..][0] == read[i] && read[i..][1..] == read[i + 1..];
        if read[i].location in fileIndex && fileIndex[read[i].location] < |entries| {
          var id := fileIndex[read[i].location];
          entries := entries[id := entries[id].(uuid := Some(read[i].uuid))];
        }
        i := i + 1;
      }
    }

    /** check_for_missing_file_uuids, one path. */
    method Prune(p: string)
      requires p in fileIndex
      modifies this`children, this`fileIndex
      ensures View() == Pruned(old(View()), p)
    {
      var id := fileIndex[p];
      if id < |entries| && entries[id].parent < |children| {
        var parent := entries[id].parent;
        children := children[parent := RemoveFirst(children[parent], id)];
      }
      fileIndex := fileIndex - {p};
    }

    method CollectMissing() returns (missing: seq<string>)
      ensures Elements(missing) == Missing(View())
      ensures Distinct(missing)
    {
      missing := [];
      var todo := fileIndex.Keys;
      while todo != {}
        invariant todo <= fileIndex.Keys
        invariant forall p :: p in missing <==> p in Missing(View()) && p !in todo
        invariant Distinct(missing)
        decreases |todo|
      {
        var p :| p in todo;
        todo := todo - {p};
        if fileIndex[p] < |entries| && entries[fileIndex[p]].uuid.None? {
          missing := missing + [p];
        }
      }
      assert forall p :: p in Elements(missing) <==> p in Missing(View());
    }

    /** check_for_missing_file_uuids: the missing paths are collected first. */
    method CheckForMissingFileUuids()
      requires Shaped(View()) && Indexed(View(), bases) && DistinctKeys(View(), bases)
      modifies this`children, this`fileIndex
      ensures PrunedBy(old(View()), View(), bases, Missing(old(View())))
      ensures Rising(old(View())) ==> Rising(View())
    {
      ghost var before := View();
      var missing := CollectMissing();
      for i := 0 to |missing|
        invariant View() == PrunedAll(before, missing[..i])
      {
        PrunedAllIndex(before, missing[..i]);
        assert missing[..i + 1][..i] == missing[..i] && missing[i] !in missing[..i] && missing[i] in Elements(missing);
        Prune(missing[i]);
      }
      assert missing[..|missing|] == missing;
      assert forall p | p in missing :: p in Elements(missing);
      PrunedAllHolds(before, bases, missing);
      if Rising(before) {
        PrunedAllRises(before, missing);
      }
    }

    /** scan, without rights and directory identifiers: the tree keeps every directory and exactly the files that
        have a record, below their own parents and in the order they were met, and the indexes are exactly the
        directories and the files in the tree, each file with its identifier. */
    method Scan(dir: seq<Node>, records: seq<Record>, size: nat)
      requires size > 0 && ValidDir(dir) && View() == Empty(bases.root)
      modifies this
      ensures EntryPaths(entries) == [(bases.root, true)] + Listing(dir, bases.root)
      ensures Nested(entries) && Rising(View())
      ensures forall i | 0 < i < |entries| && entries[i].isDir :: DirScanned(View(), bases, i)
      ensures forall i | 0 < i < |entries| && !entries[i].isDir :: FileScanned(View(), bases, records, i)
      ensures forall k | k in dirIndex :: IndexesDir(View(), bases, k)
      ensures forall k | k in fileIndex :: IndexesFile(View(), bases, k)
    {
      BuildTree(dir, bases.root, 0);
      ghost var t1 := View();
      BuiltFromEmpty(bases, dir);
      BuiltInPlace(bases, dir);
      LoadFileData(records, size);
      ghost var t2 := View();
      RecordedHold(t1, bases, records);
      CheckForMissingFileUuids();
      ScanHolds(t1, t2, View(), bases, records);
      ScanPlaces(t1, t2, View(), bases, records);
    }
  }

  // ---------------------------------------------------------------- what building gives

  predicate HasParent(entries: seq<Entry>, i: nat, p: nat) {
    0 < i < |entries| && entries[i].parent == p
  }

  /** Children are entries with this parent, each once. */
  ghost predicate Shaped(t: Tree) {
    && |t.children| == |t.entries|
    && (forall p | 0 <= p < |t.children| :: Distinct(t.children[p]))
    && (forall p, i | 0 <= p < |t.children| && i in t.children[p] :: HasParent(t.entries, i, p))
    && (forall i | 0 <= i < |t.entries| :: t.entries[i].parent < |t.entries|)
  }

  predicate InTree(t: Tree, i: nat) {
    i < |t.entries| && t.entries[i].parent < |t.children| && i in t.children[t.entries[i].parent]
  }

  /** Every file is found in the index under its location, unless another file has the same. */
  ghost predicate Indexed(t: Tree, b: Bases) {
    && (forall k | k in t.fileIndex ::
          var id := t.fileIndex[k];
          0 < id < |t.entries| && !t.entries[id].isDir && DbPath(b, t.entries[id].path, false) == k)
    && (forall i | 0 < i < |t.entries| && !t.entries[i].isDir :: DbPath(b, t.entries[i].path, false) in t.fileIndex)
  }

  /** The first n entries are untouched, in the tree or not, and all later ones are in the tree. */
  ghost predicate Continues(t: Tree, t': Tree, n: nat) {
    && n <= |t.entries| <= |t'.entries| && t'.entries[..|t.entries|] == t.entries
    && (forall i | 0 <= i < n :: InTree(t', i) <==> InTree(t, i))
    && (forall i | n <= i < |t'.entries| :: InTree(t', i))
  }

  lemma EntryShaped(t: Tree, b: Bases, path: string, isDir: bool, parent: nat)
    requires Shaped(t) && Indexed(t, b) && parent < |t.entries|
    ensures var t1 := WithEntry(t, b, path, isDir, parent);
            && Shaped(t1) && Indexed(t1, b) && |t1.entries| == |t.entries| + 1 && t1.entries[..|t.entries|] == t.entries
            && !InTree(t1, |t.entries|)
            && forall i | 0 <= i < |t.entries| :: InTree(t1, i) <==> InTree(t, i)
  {
    var t1 := WithEntry(t, b, path, isDir, parent);
    assert t1.entries == t.entries + [Entry(path, isDir, parent, None)] && t1.children == t.children + [[]];
    assert !HasParent(t.entries, |t.entries|, parent);
    forall p, i | 0 <= p < |t1.children| && i in t1.children[p] ensures HasParent(t1.entries, i, p) {
      assert p < |t.children| && HasParent(t.entries, i, p);
    }
  }

  lemma {:induction false} AttachedShaped(t: Tree, b: Bases, parent: nat, id: nat)
    requires Shaped(t) && Indexed(t, b) && 0 < id < |t.entries| && t.entries[id].parent == parent && !InTree(t, id)
    ensures var t' := Attached(t, parent, id);
            && Shaped(t') && Indexed(t', b) && t'.entries == t.entries
            && forall i | 0 <= i < |t.entries| :: InTree(t', i) <==> InTree(t, i) || i == id
  {
    DistinctConcat(t.children[parent], [id]);
  }

  lemma {:induction false} BuildShaped(t: Tree, b: Bases, dir: seq<Node>, at: string, parent: nat)
    requires Shaped(t) && Indexed(t, b) && parent < |t.entries|
    ensures var t' := Build(t, b, dir, at, parent);
            Shaped(t') && Indexed(t', b) && Continues(t, t', |t.entries|)
    decreases dir, 0
  {
    if dir != [] {
      var t1 := BuildNode(t, b, dir[0], at, parent);
      NodeShaped(t, b, dir[0], at, parent);
      BuildShaped(t1, b, dir[1..], at, parent);
      ContinuesFurther(t, t1, Build(t1, b, dir[1..], at, parent));
    }
  }

  lemma ContinuesFurther(t: Tree, t1: Tree, t2: Tree)
    requires Continues(t, t1, |t.entries|) && Continues(t1, t2, |t1.entries|)
    ensures Continues(t, t2, |t.entries|)
  {
    assert t2.entries[..|t.entries|] == t2.entries[..|t1.entries|][..|t.entries|] == t1.entries[..|t.entries|];
  }

  lemma {:induction false} NodeShaped(t: Tree, b: Bases, node: Node, at: string, parent: nat)
    requires Shaped(t) && Indexed(t, b) && parent < |t.entries|
    ensures var t' := BuildNode(t, b, node, at, parent);
            Shaped(t') && Indexed(t', b) && Continues(t, t', |t.entries|)
    decreases node, 1
  {
    var path, id := Below(at, node.name), |t.entries|;
    var t1 := WithEntry(t, b, path, node.Dir?, parent);
    EntryShaped(t, b, path, node.Dir?, parent);
    var t2 := if node.Dir? then Build(t1, b, node.entries, path, id) else t1;
    if node.Dir? {
      BuildShaped(t1, b, node.entries, path, id);
    } else {
      assert t1.entries[..|t1.entries|] == t1.entries;
    }
    assert t2.entries[..|t1.entries|] == t1.entries;
    assert t2.entries[id] == t2.entries[..|t1.entries|][id] == t1.entries[id];
    AttachedShaped(t2, b, parent, id);
    NodeContinues(t, t1, t2, Attached(t2, parent, id));
  }

  /** From the new entry, over what lies below it, to attaching it. */
  lemma NodeContinues(t: Tree, t1: Tree, t2: Tree, t3: Tree)
    requires |t1.entries| == |t.entries| + 1 && t1.entries[..|t.entries|] == t.entries
    requires forall i | 0 <= i < |t.entries| :: InTree(t1, i) <==> InTree(t, i)
    requires Continues(t1, t2, |t1.entries|) && t3.entries == t2.entries
    requires forall i | 0 <= i < |t2.entries| :: InTree(t3, i) <==> InTree(t2, i) || i == |t.entries|
    ensures Continues(t, t3, |t.entries|)
  {
    assert t2.entries[..|t.entries|] == t2.entries[..|t1.entries|][..|t.entries|] == t1.entries[..|t.entries|];
  }

  // ---------------------------------------------------------------- distinct locations

  function EntryPaths(entries: seq<Entry>): seq<(string, bool)> {
    if entries == [] then []
    else EntryPaths(entries[..|entries| - 1]) + [(entries[|entries| - 1].path, entries[|entries| - 1].isDir)]
  }

  lemma {:induction false} EntryPathsAt(entries: seq<Entry>, i: nat)
    requires i < |entries|
    ensures |EntryPaths(entries)| == |entries| && EntryPaths(entries)[i] == (entries[i].path, entries[i].isDir)
  {
    EntryPathsSize(entries[..|entries| - 1]);
    if i < |entries| - 1 {
      EntryPathsAt(entries[..|entries| - 1], i);
    }
  }

  lemma {:induction false} EntryPathsSize(entries: seq<Entry>)
    ensures |EntryPaths(entries)| == |entries|
  {
    if entries != [] {
      EntryPathsSize(entries[..|entries| - 1]);
    }
  }

  /** The entries are made in the order in which a walk lists the paths. */
  lemma {:induction false} BuildLists(t: Tree, b: Bases, dir: seq<Node>, at: string, parent: nat)
    ensures EntryPaths(Build(t, b, dir, at, parent).entries) == EntryPaths(t.entries) + Listing(dir, at)
    decreases dir, 0
  {
    if dir != [] {
      NodeLists(t, b, dir[0], at, parent);
      BuildLists(BuildNode(t, b, dir[0], at, parent), b, dir[1..], at, parent);
    }
  }

  lemma EntryListed(t: Tree, b: Bases, path: string, isDir: bool, parent: nat)
    ensures EntryPaths(WithEntry(t, b, path, isDir, parent).entries) == EntryPaths(t.entries) + [(path, isDir)]
  {
    assert WithEntry(t, b, path, isDir, parent).entries[..|t.entries|] == t.entries;
  }

  lemma {:induction false} NodeLists(t: Tree, b: Bases, node: Node, at: string, parent: nat)
    ensures EntryPaths(BuildNode(t, b, node, at, parent).entries) == EntryPaths(t.entries) + NodeListing(node, at)
    decreases node, 1
  {
    var path := Below(at, node.name);
    EntryListed(t, b, path, node.Dir?, parent);
    if node.Dir? {
      BuildLists(WithEntry(t, b, path, true, parent), b, node.entries, path, |t.entries|);
      SeqAssoc(EntryPaths(t.entries), [(path, true)], Listing(node.entries, path));
    } else {
      assert NodeListing(node, at) == [(path, false)];
    }
  }

  ghost predicate DistinctKeys(t: Tree, b: Bases) {
    forall i, j | 0 < i < j < |t.entries| ::
      DbPath(b, t.entries[i].path, false) != DbPath(b, t.entries[j].path, false)
  }

  lemma SameLocation(b: Bases, p: string, q: string)
    requires IsPrefix(Below(b.root, ""), p) && IsPrefix(Below(b.root, ""), q)
    ensures DbPath(b, p, false) == DbPath(b, q, false) ==> p == q
  {
    var n := |b.root| + 1;
    assert p == p[..n] + p[n..] && q == q[..n] + q[n..];
    if DbPath(b, p, false) == DbPath(b, q, false) {
      assert DbPath(b, p, false)[|b.db|..] == p[n..] && DbPath(b, q, false)[|b.db|..] == q[n..];
    }
  }

  lemma KeysOfListing(t: Tree, b: Bases, dir: seq<Node>)
    requires ValidDir(dir) && EntryPaths(t.entries) == [(b.root, true)] + Listing(dir, b.root)
    ensures DistinctKeys(t, b)
  {
    ListingDistinct(dir, b.root);
    ListedUnder(dir, b.root);
    forall i, j | 0 < i < j < |t.entries|
      ensures DbPath(b, t.entries[i].path, false) != DbPath(b, t.entries[j].path, false)
    {
      EntryListedAt(t, b, dir, i);
      EntryListedAt(t, b, dir, j);
      SameLocation(b, t.entries[i].path, t.entries[j].path);
    }
  }

  lemma EntryListedAt(t: Tree, b: Bases, dir: seq<Node>, i: nat)
    requires EntryPaths(t.entries) == [(b.root, true)] + Listing(dir, b.root) && 0 < i < |t.entries|
    ensures i - 1 < |Listing(dir, b.root)| && Listing(dir, b.root)[i - 1].0 == t.entries[i].path
  {
    EntryPathsAt(t.entries, i);
  }

  lemma BuiltFromEmpty(b: Bases, dir: seq<Node>)
    requires ValidDir(dir)
    ensures var t := Build(Empty(b.root), b, dir, b.root, 0);
            && Shaped(t) && Indexed(t, b) && DistinctKeys(t, b)
            && EntryPaths(t.entries) == [(b.root, true)] + Listing(dir, b.root)
            && (forall i | 0 < i < |t.entries| :: InTree(t, i) && t.entries[i].uuid == None)
  {
    var t0, t := Empty(b.root), Build(Empty(b.root), b, dir, b.root, 0);
    BuildShaped(t0, b, dir, b.root, 0);
    BuildLists(t0, b, dir, b.root, 0);
    assert t0.entries[..0] == [];
    assert EntryPaths(t0.entries) == [(b.root, true)];
    BuildNoUuids(t0, b, dir, b.root, 0);
    KeysOfListing(t, b, dir);
  }

  predicate NoUuids(entries: seq<Entry>) {
    forall i | 0 <= i < |entries| :: entries[i].uuid == None
  }

  lemma {:induction false} BuildNoUuids(t: Tree, b: Bases, dir: seq<Node>, at: string, parent: nat)
    requires NoUuids(t.entries)
    ensures NoUuids(Build(t, b, dir, at, parent).entries)
    decreases dir, 0
  {
    if dir != [] {
      NodeNoUuids(t, b, dir[0], at, parent);
      BuildNoUuids(BuildNode(t, b, dir[0], at, parent), b, dir[1..], at, parent);
    }
  }

  lemma {:induction false} NodeNoUuids(t: Tree, b: Bases, node: Node, at: string, parent: nat)
    requires NoUuids(t.entries)
    ensures NoUuids(BuildNode(t, b, node, at, parent).entries)
    decreases node, 1
  {
    var path := Below(at, node.name);
    var t1 := WithEntry(t, b, path, node.Dir?, parent);
    assert NoUuids(t1.entries);
    if node.Dir? {
      BuildNoUuids(t1, b, node.entries, path, |t.entries|);
    }
  }

  // ---------------------------------------------------------------- parents, order and directories

  /** The path is that of an entry of the directory at the other. */
  predicate IsEntryOf(dir: string, path: string) {
    |dir| < |path| && path[..|dir| + 1] == dir + "/" && '/' !in path[|dir| + 1..]
  }

  predicate NestedAt(entries: seq<Entry>, i: nat)
    requires i < |entries|
  {
    var p := entries[i].parent;
    p < i && entries[p].isDir && IsEntryOf(entries[p].path, entries[i].path)
  }

  /** Every entry lies in the directory that is its parent. */
  predicate Nested(entries: seq<Entry>) {
    forall i: nat | 0 < i < |entries| :: NestedAt(entries, i)
  }

  lemma BelowIsEntry(at: string, name: string)
    requires '/' !in name
    ensures IsEntryOf(at, Below(at, name))
  {
    assert Below(at, name)[..|at| + 1] == at + "/" && Below(at, name)[|at| + 1..] == name;
  }

  lemma EntryNested(t: Tree, b: Bases, node: Node, at: string, parent: nat)
    requires Nested(t.entries) && ValidNode(node)
    requires parent < |t.entries| && t.entries[parent].isDir && t.entries[parent].path == at
    ensures Nested(WithEntry(t, b, Below(at, node.name), node.Dir?, parent).entries)
  {
    BelowIsEntry(at, node.name);
    var entries := WithEntry(t, b, Below(at, node.name), node.Dir?, parent).entries;
    forall i: nat | 0 < i < |entries| ensures NestedAt(entries, i) {
      if i < |t.entries| {
        assert NestedAt(t.entries, i);
      }
    }
  }

  lemma {:induction false} BuildNested(t: Tree, b: Bases, dir: seq<Node>, at: string, parent: nat)
    requires Nested(t.entries) && ValidDir(dir)
    requires parent < |t.entries| && t.entries[parent].isDir && t.entries[parent].path == at
    ensures var t' := Build(t, b, dir, at, parent); Nested(t'.entries) && t.entries <= t'.entries
    decreases dir, 0
  {
    if dir != [] {
      NodeNested(t, b, dir[0], at, parent);
      BuildNested(BuildNode(t, b, dir[0], at, parent), b, dir[1..], at, parent);
    }
  }

  lemma {:induction false} NodeNested(t: Tree, b: Bases, node: Node, at: string, parent: nat)
    requires Nested(t.entries) && ValidNode(node)
    requires parent < |t.entries| && t.entries[parent].isDir && t.entries[parent].path == at
    ensures var t' := BuildNode(t, b, node, at, parent); Nested(t'.entries) && t.entries <= t'.entries
    decreases node, 1
  {
    EntryNested(t, b, node, at, parent);
    if node.Dir? {
      var path := Below(at, node.name);
      BuildNested(WithEntry(t, b, path, true, parent), b, node.entries, path, |t.entries|);
    }
  }

  predicate Rises(ids: seq<nat>) {
    forall j, k | 0 <= j < k < |ids| :: ids[j] < ids[k]
  }

  /** Children are in the order in which they were made, which is that of the listing. */
  predicate Rising(t: Tree) {
    forall p | 0 <= p < |t.children| :: Rises(t.children[p])
  }

  predicate Made(t: Tree) {
    |t.children| == |t.entries| && forall p, i | 0 <= p < |t.children| && i in t.children[p] :: i < |t.entries|
  }

  lemma {:induction false} BuildRises(t: Tree, b: Bases, dir: seq<Node>, at: string, parent: nat)
    requires Rising(t) && Made(t) && parent < |t.entries|
    ensures var t' := Build(t, b, dir, at, parent);
            && Rising(t') && Made(t') && |t.entries| <= |t'.entries|
            && forall p | 0 <= p < |t.children| && p != parent :: t'.children[p] == t.children[p]
    decreases dir, 0
  {
    if dir != [] {
      NodeRises(t, b, dir[0], at, parent);
      BuildRises(BuildNode(t, b, dir[0], at, parent), b, dir[1..], at, parent);
    }
  }

  lemma {:induction false} NodeRises(t: Tree, b: Bases, node: Node, at: string, parent: nat)
    requires Rising(t) && Made(t) && parent < |t.entries|
    ensures var t' := BuildNode(t, b, node, at, parent);
            && Rising(t') && Made(t') && |t.entries| < |t'.entries|
            && forall p | 0 <= p < |t.children| && p != parent :: t'.children[p] == t.children[p]
    decreases node, 1
  {
    var path, id := Below(at, node.name), |t.entries|;
    var t1 := WithEntry(t, b, path, node.Dir?, parent);
    assert t1.children == t.children + [[]] && |t1.entries| == id + 1;
    assert Rising(t1) && Made(t1);
    var t2 := if node.Dir? then Build(t1, b, node.entries, path, id) else t1;
    if node.Dir? {
      BuildRises(t1, b, node.entries, path, id);
    }
    assert t2.children[parent] == t1.children[parent] == t.children[parent];
    LastRises(t, t2, parent, id);
  }

  lemma LastRises(t: Tree, t2: Tree, parent: nat, id: nat)
    requires Made(t) && Rising(t2) && Made(t2) && parent < |t.children| && id == |t.entries| < |t2.entries|
    requires t2.children[parent] == t.children[parent]
    ensures Rising(Attached(t2, parent, id)) && Made(Attached(t2, parent, id))
  {
    forall j | 0 <= j < |t.children[parent]| ensures t.children[parent][j] < id {
      assert t.children[parent][j] in t.children[parent];
    }
  }

  /** Every directory is found in its index under its location. */
  predicate DirIndexed(t: Tree, b: Bases) {
    && (forall k | k in t.dirIndex ::
          var id := t.dirIndex[k];
          0 < id < |t.entries| && t.entries[id].isDir && DbPath(b, t.entries[id].path, true) == k)
    && (forall i | 0 < i < |t.entries| && t.entries[i].isDir :: DbPath(b, t.entries[i].path, true) in t.dirIndex)
  }

  lemma EntryDirIndexed(t: Tree, b: Bases, path: string, isDir: bool, parent: nat)
    requires DirIndexed(t, b) && t.entries != []
    ensures DirIndexed(WithEntry(t, b, path, isDir, parent), b)
  {
    var t1 := WithEntry(t, b, path, isDir, parent);
    assert t1.entries == t.entries + [Entry(path, isDir, parent, None)];
  }

  lemma {:induction false} BuildDirIndexed(t: Tree, b: Bases, dir: seq<Node>, at: string, parent: nat)
    requires DirIndexed(t, b) && t.entries != []
    ensures var t' := Build(t, b, dir, at, parent); DirIndexed(t', b) && t'.entries != []
    decreases dir, 0
  {
    if dir != [] {
      NodeDirIndexed(t, b, dir[0], at, parent);
      BuildDirIndexed(BuildNode(t, b, dir[0], at, parent), b, dir[1..], at, parent);
    }
  }

  lemma {:induction false} NodeDirIndexed(t: Tree, b: Bases, node: Node, at: string, parent: nat)
    requires DirIndexed(t, b) && t.entries != []
    ensures var t' := BuildNode(t, b, node, at, parent); DirIndexed(t', b) && t'.entries != []
    decreases node, 1
  {
    var path := Below(at, node.name);
    EntryDirIndexed(t, b, path, node.Dir?, parent);
    if node.Dir? {
      BuildDirIndexed(WithEntry(t, b, path, true, parent), b, node.entries, path, |t.entries|);
    }
  }

  /** The location in the database of a path below the root. */
  function Location(b: Bases, path: string): string
    requires |b.root| < |path|
  {
    b.db + path[|b.root| + 1..]
  }

  lemma LocationIs(b: Bases, path: string)
    requires |b.root| < |path|
    ensures DbPath(b, path, false) == Location(b, path) && DbPath(b, path, true) == Location(b, path) + "/"
  {
  }

  predicate AllBelow(t: Tree, b: Bases) {
    forall i | 0 < i < |t.entries| :: |b.root| < |t.entries[i].path|
  }

  lemma BuiltInPlace(b: Bases, dir: seq<Node>)
    requires ValidDir(dir)
    ensures var t := Build(Empty(b.root), b, dir, b.root, 0);
            Nested(t.entries) && Rising(t) && DirIndexed(t, b) && AllBelow(t, b)
  {
    var t0, t := Empty(b.root), Build(Empty(b.root), b, dir, b.root, 0);
    BuildNested(t0, b, dir, b.root, 0);
    BuildRises(t0, b, dir, b.root, 0);
    BuildDirIndexed(t0, b, dir, b.root, 0);
    BuildLists(t0, b, dir, b.root, 0);
    assert t0.entries[..0] == [] && EntryPaths(t0.entries) == [(b.root, true)];
    ListedUnder(dir, b.root);
    forall i | 0 < i < |t.entries| ensures |b.root| < |t.entries[i].path| {
      EntryListedAt(t, b, dir, i);
    }
  }

  // ---------------------------------------------------------------- records

  /** The identifier in the last record with the location. */
  function LastRecord(records: seq<Record>, location: string): Option<string>
    decreases |records|
  {
    if records == [] then None
    else if LastRecord(records[1..], location).Some? then LastRecord(records[1..], location)
    else if records[0].location == location then Some(records[0].uuid)
    else None
  }

  /** The identifier is that of the last record of the location; None means there is no such record. */
  predicate Identifies(records: seq<Record>, location: string, uuid: Option<string>) {
    match uuid
    case None => forall r | r in records :: r.location != location
    case Some(id) =>
      exists j :: && 0 <= j < |records| && records[j] == Record(location, id)
                  && forall k | j < k < |records| :: records[k].location != location
  }

  lemma {:induction false} LastRecordIdentifies(records: seq<Record>, location: string)
    ensures Identifies(records, location, LastRecord(records, location))
    decreases |records|
  {
    if records != [] {
      var rest := records[1..];
      LastRecordIdentifies(rest, location);
      assert records == [records[0]] + rest;
      var found := LastRecord(rest, location);
      if found.Some? {
        var j :| && 0 <= j < |rest| && rest[j] == Record(location, found.value)
                 && forall k | j < k < |rest| :: rest[k].location != location;
        assert records[j + 1] == Record(location, found.value);
        assert forall k | j + 1 < k < |records| :: records[k] == rest[k - 1];
      } else if records[0].location == location {
        assert records[0] == Record(location, records[0].uuid);
        assert forall k | 0 < k < |records| :: records[k] == rest[k - 1] && rest[k - 1] in rest;
      }
    }
  }

  /** The same entries but for identifiers. */
  predicate SameButUuids(t: Tree, t': Tree) {
    && t'.children == t.children && t'.fileIndex == t.fileIndex && t'.dirIndex == t.dirIndex
    && |t'.entries| == |t.entries|
    && forall i | 0 <= i < |t.entries| :: t'.entries[i] == t.entries[i].(uuid := t'.entries[i].uuid)
  }

  lemma IndexedAt(t: Tree, b: Bases, i: nat)
    requires Indexed(t, b) && DistinctKeys(t, b) && 0 < i < |t.entries| && !t.entries[i].isDir
    ensures var k := DbPath(b, t.entries[i].path, false);
            k in t.fileIndex && t.fileIndex[k] == i
  {
  }

  lemma {:induction false} RecordsFound(t: Tree, b: Bases, records: seq<Record>, i: nat)
    requires Indexed(t, b) && DistinctKeys(t, b) && 0 < i < |t.entries| && !t.entries[i].isDir
    ensures var t' := RecordedAll(t, records);
            var found := LastRecord(records, DbPath(b, t.entries[i].path, false));
            && SameButUuids(t, t') && t'.entries[i].uuid == if found.Some? then found else t.entries[i].uuid
    decreases |records|
  {
    if records != [] {
      var t1 := Recorded(t, records[0]);
      RecordedSame(t, b, records[0]);
      IndexedAt(t, b, i);
      RecordsFound(t1, b, records[1..], i);
    }
  }

  lemma RecordedSame(t: Tree, b: Bases, r: Record)
    requires Indexed(t, b) && DistinctKeys(t, b)
    ensures SameButUuids(t, Recorded(t, r)) && Indexed(Recorded(t, r), b) && DistinctKeys(Recorded(t, r), b)
  {
  }

  lemma {:induction false} RecordedAllSame(t: Tree, b: Bases, records: seq<Record>)
    requires Indexed(t, b) && DistinctKeys(t, b)
    ensures SameButUuids(t, RecordedAll(t, records))
    decreases |records|
  {
    if records != [] {
      RecordedSame(t, b, records[0]);
      RecordedAllSame(Recorded(t, records[0]), b, records[1..]);
    }
  }

  /** No record gives a directory an identifier. */
  lemma {:induction false} RecordedDirs(t: Tree, b: Bases, records: seq<Record>)
    requires Indexed(t, b) && DistinctKeys(t, b)
    ensures forall i | 0 < i < |t.entries| && t.entries[i].isDir ::
              |RecordedAll(t, records).entries| == |t.entries| && RecordedAll(t, records).entries[i] == t.entries[i]
    decreases |records|
  {
    if records != [] {
      RecordedSame(t, b, records[0]);
      RecordedDirs(Recorded(t, records[0]), b, records[1..]);
    }
  }

  lemma {:induction false} RecordedHold(t: Tree, b: Bases, records: seq<Record>)
    requires Shaped(t) && Indexed(t, b) && DistinctKeys(t, b)
    ensures var t' := RecordedAll(t, records);
            && SameButUuids(t, t') && Shaped(t') && Indexed(t', b) && DistinctKeys(t', b)
            && forall i | 0 < i < |t.entries| && !t.entries[i].isDir ::
                 var found := LastRecord(records, DbPath(b, t.entries[i].path, false));
                 t'.entries[i].uuid == if found.Some? then found else t.entries[i].uuid
  {
    var t' := RecordedAll(t, records);
    RecordedAllSame(t, b, records);
    forall i | 0 < i < |t.entries| && !t.entries[i].isDir
      ensures var found := LastRecord(records, DbPath(b, t.entries[i].path, false));
              t'.entries[i].uuid == if found.Some? then found else t.entries[i].uuid
    {
      RecordsFound(t, b, records, i);
    }
    forall p, i | 0 <= p < |t'.children| && i in t'.children[p] ensures HasParent(t'.entries, i, p) {
      assert HasParent(t.entries, i, p);
    }
  }

  // ---------------------------------------------------------------- pruning

  predicate Gone(t: Tree, b: Bases, done: set<string>, i: nat)
    requires i < |t.entries|
  {
    !t.entries[i].isDir && DbPath(b, t.entries[i].path, false) in done
  }

  /** The files of some locations are gone from the index and from the tree; nothing else is. */
  ghost predicate PrunedBy(t0: Tree, t: Tree, b: Bases, done: set<string>) {
    && t.entries == t0.entries && Shaped(t) && t.fileIndex == t0.fileIndex - done && t.dirIndex == t0.dirIndex
    && forall i | 0 < i < |t.entries| :: InTree(t, i) <==> InTree(t0, i) && !Gone(t0, b, done, i)
  }

  lemma PrunedByNone(t: Tree, b: Bases)
    requires Shaped(t)
    ensures PrunedBy(t, t, b, {})
  {
    assert t.fileIndex - {} == t.fileIndex;
  }

  /** Pruning takes one entry from the children of its parent. */
  lemma PrunedShaped(t: Tree, p: string)
    requires Shaped(t) && p in t.fileIndex && t.fileIndex[p] < |t.entries|
    ensures var t' := Pruned(t, p);
            && t'.entries == t.entries && t'.fileIndex == t.fileIndex - {p} && t'.dirIndex == t.dirIndex && Shaped(t')
            && forall i | 0 <= i < |t.entries| :: InTree(t', i) <==> InTree(t, i) && i != t.fileIndex[p]
  {
    var id := t.fileIndex[p];
    var parent := t.entries[id].parent;
    RemoveFirstKeeps(t.children[parent], id);
    var t' := Pruned(t, p);
    forall q, i | 0 <= q < |t'.children| && i in t'.children[q] ensures HasParent(t'.entries, i, q) {
      assert HasParent(t.entries, i, q);
    }
  }

  lemma PrunedOneMore(t0: Tree, t: Tree, b: Bases, done: set<string>, p: string)
    requires Indexed(t0, b) && DistinctKeys(t0, b) && PrunedBy(t0, t, b, done) && p in t0.fileIndex && p !in done
    ensures p in t.fileIndex && PrunedBy(t0, Pruned(t, p), b, done + {p})
  {
    var id := t.fileIndex[p];
    PrunedShaped(t, p);
    assert t.fileIndex - {p} == t0.fileIndex - (done + {p});
    forall i | 0 < i < |t.entries| ensures Gone(t0, b, done + {p}, i) <==> Gone(t0, b, done, i) || i == id {
    }
  }

  lemma {:induction false} PrunedAllIndex(t: Tree, missing: seq<string>)
    ensures PrunedAll(t, missing).fileIndex == t.fileIndex - Elements(missing)
  {
    if missing == [] {
      assert t.fileIndex - {} == t.fileIndex;
    } else {
      var front, p := missing[..|missing| - 1], missing[|missing| - 1];
      PrunedAllIndex(t, front);
      assert missing == front + [p];
      assert Elements(missing) == Elements(front) + {p};
    }
  }

  lemma {:induction false} PrunedAllHolds(t: Tree, b: Bases, missing: seq<string>)
    requires Shaped(t) && Indexed(t, b) && DistinctKeys(t, b) && forall p | p in missing :: p in t.fileIndex
    ensures PrunedBy(t, PrunedAll(t, missing), b, Elements(missing))
  {
    if missing == [] {
      PrunedByNone(t, b);
      assert Elements(missing) == {};
    } else {
      var front, p := missing[..|missing| - 1], missing[|missing| - 1];
      PrunedAllHolds(t, b, front);
      assert missing == front + [p];
      assert Elements(missing) == Elements(front) + {p};
      if p in front {
        assert Elements(missing) == Elements(front);
      } else {
        PrunedOneMore(t, PrunedAll(t, front), b, Elements(front), p);
      }
    }
  }

  lemma {:induction false} PrunedAllRises(t: Tree, missing: seq<string>)
    requires Rising(t)
    ensures Rising(PrunedAll(t, missing))
  {
    if missing != [] {
      var t1, p := PrunedAll(t, missing[..|missing| - 1]), missing[|missing| - 1];
      PrunedAllRises(t, missing[..|missing| - 1]);
      if p in t1.fileIndex && t1.fileIndex[p] < |t1.entries| {
        var parent := t1.entries[t1.fileIndex[p]].parent;
        if parent < |t1.children| {
          StillRises(t1.children[parent], t1.fileIndex[p]);
        }
      }
    }
  }

  lemma StillRises(ids: seq<nat>, id: nat)
    requires Rises(ids)
    ensures Rises(RemoveFirst(ids, id))
  {
  }

  /** What scan leaves of one directory. */
  ghost predicate DirScanned(t: Tree, b: Bases, i: nat) {
    i < |t.entries| && |b.root| < |t.entries[i].path| &&
    var k := Location(b, t.entries[i].path) + "/";
    InTree(t, i) && t.entries[i].uuid == None && k in t.dirIndex && t.dirIndex[k] == i
  }

  /** What scan leaves of one file. */
  ghost predicate FileScanned(t: Tree, b: Bases, records: seq<Record>, i: nat) {
    i < |t.entries| && |b.root| < |t.entries[i].path| &&
    var k := Location(b, t.entries[i].path);
    var recorded := exists r :: r in records && r.location == k;
    && (InTree(t, i) <==> recorded) && (k in t.fileIndex <==> recorded)
    && (recorded ==> t.fileIndex[k] == i && Identifies(records, k, t.entries[i].uuid))
  }

  predicate IndexesDir(t: Tree, b: Bases, k: string) {
    && k in t.dirIndex && 0 < t.dirIndex[k] < |t.entries| && t.entries[t.dirIndex[k]].isDir
    && |b.root| < |t.entries[t.dirIndex[k]].path| && Location(b, t.entries[t.dirIndex[k]].path) + "/" == k
  }

  ghost predicate Built(t: Tree, b: Bases) {
    && Shaped(t) && Indexed(t, b) && DistinctKeys(t, b) && AllBelow(t, b)
    && forall i | 0 < i < |t.entries| :: InTree(t, i) && t.entries[i].uuid == None
  }

  lemma {:induction false} FileHolds(t1: Tree, t2: Tree, t3: Tree, b: Bases, records: seq<Record>, i: nat)
    requires Built(t1, b) && t2 == RecordedAll(t1, records) && PrunedBy(t2, t3, b, Missing(t2))
    requires 0 < i < |t3.entries| && !t3.entries[i].isDir
    ensures FileScanned(t3, b, records, i)
  {
    RecordedHold(t1, b, records);
    IndexedAt(t2, b, i);
    assert InTree(t1, i) && InTree(t2, i);
    LocationIs(b, t3.entries[i].path);
    LastRecordIdentifies(records, Location(b, t3.entries[i].path));
  }

  lemma {:induction false} ScanHolds(t1: Tree, t2: Tree, t3: Tree, b: Bases, records: seq<Record>)
    requires Built(t1, b) && t2 == RecordedAll(t1, records) && PrunedBy(t2, t3, b, Missing(t2))
    ensures EntryPaths(t3.entries) == EntryPaths(t1.entries)
    ensures forall i | 0 < i < |t3.entries| && !t3.entries[i].isDir :: FileScanned(t3, b, records, i)
    ensures forall k | k in t3.fileIndex :: IndexesFile(t3, b, k)
  {
    RecordedHold(t1, b, records);
    SamePaths(t1.entries, t2.entries);
    forall i | 0 < i < |t3.entries| && !t3.entries[i].isDir ensures FileScanned(t3, b, records, i) {
      FileHolds(t1, t2, t3, b, records, i);
    }
    forall k | k in t3.fileIndex ensures IndexesFile(t3, b, k) {
      LocationIs(b, t3.entries[t3.fileIndex[k]].path);
    }
  }

  predicate IndexesFile(t: Tree, b: Bases, k: string) {
    && k in t.fileIndex && 0 < t.fileIndex[k] < |t.entries| && !t.entries[t.fileIndex[k]].isDir
    && |b.root| < |t.entries[t.fileIndex[k]].path| && Location(b, t.entries[t.fileIndex[k]].path) == k
  }

  lemma SameNested(a: seq<Entry>, b: seq<Entry>)
    requires |a| == |b| && forall i | 0 <= i < |a| :: a[i] == b[i].(uuid := a[i].uuid)
    requires Nested(a)
    ensures Nested(b)
  {
    forall i: nat | 0 < i < |b| ensures NestedAt(b, i) {
      assert NestedAt(a, i);
    }
  }

  lemma {:induction false} DirHolds(t1: Tree, t2: Tree, t3: Tree, b: Bases, records: seq<Record>, i: nat)
    requires Built(t1, b) && DirIndexed(t1, b)
    requires t2 == RecordedAll(t1, records) && PrunedBy(t2, t3, b, Missing(t2))
    requires 0 < i < |t3.entries| && t3.entries[i].isDir
    ensures DirScanned(t3, b, i)
  {
    RecordedHold(t1, b, records);
    RecordedDirs(t1, b, records);
    assert InTree(t1, i) && InTree(t2, i);
    LocationIs(b, t3.entries[i].path);
    var k := Location(b, t3.entries[i].path) + "/";
    var j := t1.dirIndex[k];
    LocationIs(b, t1.entries[j].path);
    assert Location(b, t1.entries[j].path) == k[..|k| - 1] == Location(b, t1.entries[i].path);
  }

  /** Parents, order and directories stay as they were built. */
  lemma {:induction false} ScanPlaces(t1: Tree, t2: Tree, t3: Tree, b: Bases, records: seq<Record>)
    requires Built(t1, b) && DirIndexed(t1, b) && Nested(t1.entries)
    requires t2 == RecordedAll(t1, records) && PrunedBy(t2, t3, b, Missing(t2))
    ensures Nested(t3.entries)
    ensures forall i | 0 < i < |t3.entries| && t3.entries[i].isDir :: DirScanned(t3, b, i)
    ensures forall k | k in t3.dirIndex :: IndexesDir(t3, b, k)
  {
    RecordedHold(t1, b, records);
    SameNested(t1.entries, t2.entries);
    forall i | 0 < i < |t3.entries| && t3.entries[i].isDir ensures DirScanned(t3, b, i) {
      DirHolds(t1, t2, t3, b, records, i);
    }
    forall k | k in t3.dirIndex ensures IndexesDir(t3, b, k) {
      LocationIs(b, t1.entries[t1.dirIndex[k]].path);
    }
  }

  lemma {:induction false} SamePaths(a: seq<Entry>, b: seq<Entry>)
    requires |a| == |b| && forall i | 0 <= i < |a| :: a[i] == b[i].(uuid := a[i].uuid)
    ensures EntryPaths(a) == EntryPaths(b)
  {
    if a != [] {
      SamePaths(a[..|a| - 1], b[..|b| - 1]);
    }
  }
}
