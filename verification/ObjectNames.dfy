/** Renames on disk carried over to the database in batches
    (worker/worker/clientScripts/change_object_names.py). */
module ObjectNames {
  import opened Text
  import opened DirTree
  import opened ChangeNames
  import opened TreeCleanup

  /** A File or Directory record; live tells whether the query set of this transfer or SIP returns it. */
  datatype Row = Row(id: nat, location: string, live: bool)

  /** A "filename change" event. */
  datatype ChangeEvent = ChangeEvent(row: nat, oldLocation: string, newLocation: string)

  // ---------------------------------------------------------------- one pass over the records

  function Relocated(row: Row, index: map<string, string>): Row {
    if row.live && row.location in index then row.(location := index[row.location]) else row
  }

  function Relocate(rows: seq<Row>, index: map<string, string>): (r: seq<Row>)
    ensures |r| == |rows|
    ensures forall i | 0 <= i < |rows| :: r[i] == Relocated(rows[i], index)
  {
    if rows == [] then [] else [Relocated(rows[0], index)] + Relocate(rows[1..], index)
  }

  function EventOf(row: Row, index: map<string, string>): seq<ChangeEvent> {
    if row.live && row.location in index then [ChangeEvent(row.id, row.location, index[row.location])] else []
  }

  function EventsOf(rows: seq<Row>, index: map<string, string>): seq<ChangeEvent> {
    if rows == [] then [] else EventOf(rows[0], index) + EventsOf(rows[1..], index)
  }

  /** Two passes in a row do the work of one, provided the second looks for none of the names the
      first one wrote. */
  lemma {:induction false} TwoPassesAreOne(rows: seq<Row>, a: map<string, string>, b: map<string, string>)
    requires a.Keys !! b.Keys && a.Values !! b.Keys
    ensures Relocate(Relocate(rows, a), b) == Relocate(rows, a + b)
    ensures multiset(EventsOf(rows, a)) + multiset(EventsOf(Relocate(rows, a), b)) == multiset(EventsOf(rows, a + b))
  {
    if rows != [] {
      var row, rest := rows[0], Relocate(rows[1..], a);
      TwoPassesAreOne(rows[1..], a, b);
      TwoPassesOnRow(row, a, b);
      var moved := Relocate(rows, a);
      assert moved == [Relocated(row, a)] + rest;
      assert moved[1..] == rest;
    }
  }

  lemma TwoPassesOnRow(row: Row, a: map<string, string>, b: map<string, string>)
    requires a.Keys !! b.Keys && a.Values !! b.Keys
    ensures Relocated(Relocated(row, a), b) == Relocated(row, a + b)
    ensures EventOf(row, a) + EventOf(Relocated(row, a), b) == EventOf(row, a + b)
  {
    if row.live && row.location in a {
      assert a[row.location] in a.Values;
    }
  }

  lemma {:induction false} EmptyPass(rows: seq<Row>)
    ensures Relocate(rows, map[]) == rows && EventsOf(rows, map[]) == []
  {
    if rows != [] {
      EmptyPass(rows[1..]);
    }
  }

  lemma {:induction false} EventsConcat(a: seq<Row>, b: seq<Row>, index: map<string, string>)
    ensures EventsOf(a + b, index) == EventsOf(a, index) + EventsOf(b, index)
  {
    if a == [] {
      assert a + b == b;
    } else {
      assert (a + b)[1..] == a[1..] + b;
      EventsConcat(a[1..], b, index);
    }
  }

  lemma EventsPrefix(rows: seq<Row>, k: nat, index: map<string, string>)
    requires k < |rows|
    ensures EventsOf(rows[..k + 1], index) == EventsOf(rows[..k], index) + EventOf(rows[k], index)
  {
    assert rows[..k + 1] == rows[..k] + [rows[k]];
    EventsConcat(rows[..k], [rows[k]], index);
  }

  lemma RelocatePrefix(rows: seq<Row>, k: nat, index: map<string, string>)
    requires k < |rows|
    ensures var part := Relocate(rows[..k], index) + rows[k..];
            && part[k] == rows[k]
            && Relocate(rows[..k + 1], index) + rows[k + 1..] == part[k := Relocated(rows[k], index)]
            && (Relocated(rows[k], index) == rows[k] ==> part[k := Relocated(rows[k], index)] == part)
  {
  }

  /** The primary key of the table. */
  predicate DistinctRows(rows: seq<Row>) {
    forall i, j | 0 <= i < j < |rows| :: rows[i].id != rows[j].id
  }

  /** What a pass does to one record: if it belongs to the unit and its location is looked for it is relocated, with one
      event that names the old location and the new one; otherwise it stays as it is, without an event. */
  lemma OneEventPerMove(rows: seq<Row>, index: map<string, string>, k: nat)
    requires k < |rows| && DistinctRows(rows)
    ensures var row, after := rows[k], Relocate(rows, index)[k];
            var about := EventsAbout(EventsOf(rows, index), row.id);
            && after.id == row.id && after.live == row.live
            && if row.live && row.location in index then
                 after.location == index[row.location]
                 && about == [ChangeEvent(row.id, row.location, after.location)]
               else
                 after == row && about == []
  {
    EventsAboutRow(rows, index, k);
  }

  lemma {:induction false} EventsAboutRow(rows: seq<Row>, index: map<string, string>, k: nat)
    requires k < |rows| && DistinctRows(rows)
    ensures EventsAbout(EventsOf(rows, index), rows[k].id) == EventOf(rows[k], index)
  {
    EventsAboutConcat(EventOf(rows[0], index), EventsOf(rows[1..], index), rows[k].id);
    if k == 0 {
      NoEventsAbout(rows[1..], index, rows[0].id);
      assert EventsAbout(EventOf(rows[0], index), rows[0].id) == EventOf(rows[0], index);
    } else {
      assert rows[1..][k - 1] == rows[k] && rows[0].id != rows[k].id;
      EventsAboutRow(rows[1..], index, k - 1);
      assert EventsAbout(EventOf(rows[0], index), rows[k].id) == [];
    }
  }

  function EventsAbout(events: seq<ChangeEvent>, row: nat): seq<ChangeEvent> {
    if events == [] then []
    else if events[0].row == row then [events[0]] + EventsAbout(events[1..], row)
    else EventsAbout(events[1..], row)
  }

  lemma {:induction false} EventsAboutConcat(a: seq<ChangeEvent>, b: seq<ChangeEvent>, row: nat)
    ensures EventsAbout(a + b, row) == EventsAbout(a, row) + EventsAbout(b, row)
  {
    if a == [] {
      assert a + b == b;
    } else {
      assert (a + b)[1..] == a[1..] + b;
      EventsAboutConcat(a[1..], b, row);
    }
  }

  lemma {:induction false} NoEventsAbout(rows: seq<Row>, index: map<string, string>, row: nat)
    requires forall i | 0 <= i < |rows| :: rows[i].id != row
    ensures EventsAbout(EventsOf(rows, index), row) == []
  {
    if rows != [] {
      EventsAboutConcat(EventOf(rows[0], index), EventsOf(rows[1..], index), row);
      NoEventsAbout(rows[1..], index, row);
    }
  }

  // ---------------------------------------------------------------- the whole old-to-new map

  /** Where the database keeps its paths: the package directory is written as a placeholder. */
  datatype Place = Place(sipPath: string, groupType: string) {
    /** normalize_path_for_db, with NFC taken as the identity. */
    function Normalize(path: string): string {
      ReplaceFirst(path, sipPath, groupType)
    }

    /** os.path.join(path, ""). */
    function WithSlash(path: string): string {
      if path == "" || path[|path| - 1] == '/' then path else path + "/"
    }

    function Key(path: string, isDir: bool): string {
      if isDir then WithSlash(Normalize(path)) else Normalize(path)
    }

    /** The database moves that the changed entries of one kind (files or directories) ask for. */
    function Moves(renames: seq<Rename>, dirs: bool): seq<Move> {
      if renames == [] then []
      else Moves(renames[..|renames| - 1], dirs) + MovesOf(renames[|renames| - 1], dirs)
    }

    function MovesOf(r: Rename, dirs: bool): seq<Move> {
      if r.wasChanged && r.isDir == dirs then [Move(Key(r.oldPath, dirs), Key(r.newPath, dirs))] else []
    }
  }

  datatype Move = Move(from: string, to: string)

  /** The moves as one old-to-new map. */
  function Index(moves: seq<Move>): map<string, string> {
    if moves == [] then map[]
    else Index(moves[..|moves| - 1])[moves[|moves| - 1].from := moves[|moves| - 1].to]
  }

  predicate DistinctMoves(moves: seq<Move>) {
    forall i, j | 0 <= i < j < |moves| :: moves[i].from != moves[j].from
  }

  lemma {:induction false} IndexHolds(moves: seq<Move>)
    requires DistinctMoves(moves)
    ensures forall i | 0 <= i < |moves| :: moves[i].from in Index(moves) && Index(moves)[moves[i].from] == moves[i].to
    ensures forall k | k in Index(moves) :: exists i :: 0 <= i < |moves| && moves[i].from == k
  {
    if moves != [] {
      var before := moves[..|moves| - 1];
      IndexHolds(before);
      forall k | k in Index(moves) ensures exists i :: 0 <= i < |moves| && moves[i].from == k {
        if k in Index(before) {
          var i :| 0 <= i < |before| && before[i].from == k;
          assert moves[i].from == k;
        }
      }
      forall i | 0 <= i < |moves| ensures moves[i].from in Index(moves) && Index(moves)[moves[i].from] == moves[i].to {
        if i < |before| {
          assert before[i] == moves[i];
        }
      }
    }
  }

  lemma {:induction false} IndexConcat(a: seq<Move>, b: seq<Move>)
    ensures Index(a + b) == Index(a) + Index(b)
  {
    if b == [] {
      assert a + b == a;
    } else {
      assert (a + b)[..|a + b| - 1] == a + b[..|b| - 1];
      IndexConcat(a, b[..|b| - 1]);
    }
  }

  lemma KeyCleanness(place: Place, root: string, path: string, isDir: bool)
    requires IsPrefix(place.sipPath, root) && IsPrefix(root, path) && root < path && path[|path| - 1] != '/'
    ensures CleanBelow(place.Normalize(root), place.Key(path, isDir)) <==> CleanBelow(root, path)
  {
    var (dbRoot, dbPath) := (place.Normalize(root), place.Normalize(path));
    var key := place.Key(path, isDir);
    assert dbPath[|dbPath| - 1] == path[|path| - 1];
    assert key == dbPath || key == dbPath + "/";
    assert forall i | |root| <= i < |path| :: dbPath[|dbRoot| + i - |root|] == path[i];
    if CleanBelow(root, path) {
      forall i | |dbRoot| <= i < |key| ensures Allowed(key[i]) || key[i] == '/' {
        if i < |dbPath| {
          assert key[i] == path[i - |dbRoot| + |root|];
        }
      }
    }
    if CleanBelow(dbRoot, key) {
      forall i | |root| <= i < |path| ensures Allowed(path[i]) || path[i] == '/' {
        assert key[|dbRoot| + i - |root|] == path[i];
      }
    }
  }

  lemma KeyInjective(place: Place, root: string, p: string, q: string, isDir: bool)
    requires IsPrefix(place.sipPath, root) && IsPrefix(root, p) && IsPrefix(root, q)
    requires root < p && p[|p| - 1] != '/' && root < q && q[|q| - 1] != '/'
    requires place.Key(p, isDir) == place.Key(q, isDir)
    ensures p == q
  {
    var (dbRoot, dp, dq) := (place.Normalize(root), place.Normalize(p), place.Normalize(q));
    assert dp[|dp| - 1] == p[|p| - 1] && dq[|dq| - 1] == q[|q| - 1];
    assert dp == dq by {
      if isDir {
        assert dp == (dp + "/")[..|dp|] && dq == (dq + "/")[..|dq|];
      }
    }
    assert p[|root|..] == dp[|dbRoot|..] == dq[|dbRoot|..] == q[|root|..];
    assert p == root + p[|root|..] && q == root + q[|root|..];
  }

  /** What change_tree promises about the tuples it yields, as far as the database side needs it. */
  ghost predicate Orderly(place: Place, root: string, renames: seq<Rename>) {
    && IsPrefix(place.sipPath, root)
    && PathsDistinct(OldPaths(renames))
    && forall i | 0 <= i < |renames| :: Sound(root, renames[i])
  }

  ghost predicate Sound(root: string, r: Rename) {
    && Judged(root, r)
    && Proper(root, r.oldPath) && Proper(root, r.newPath)
  }

  /** The two kinds of key never meet: an old path of a changed entry has a character no new path has. */
  predicate Separated(root: string, moves: seq<Move>) {
    forall i | 0 <= i < |moves| :: !CleanBelow(root, moves[i].from) && CleanBelow(root, moves[i].to)
  }

  lemma {:induction false} MovesAreSeparated(place: Place, root: string, renames: seq<Rename>, dirs: bool)
    requires Orderly(place, root, renames)
    ensures Separated(place.Normalize(root), place.Moves(renames, dirs))
  {
    if renames != [] {
      OrderlyPrefix(place, root, renames);
      MovesAreSeparated(place, root, renames[..|renames| - 1], dirs);
      MovesOfIsSeparated(place, root, renames[|renames| - 1], dirs);
    }
  }

  lemma {:induction false} MovesAreDistinct(place: Place, root: string, renames: seq<Rename>, dirs: bool)
    requires Orderly(place, root, renames)
    ensures DistinctMoves(place.Moves(renames, dirs))
    ensures forall m | m in place.Moves(renames, dirs) :: KeyOfOne(place, renames, dirs, m.from)
  {
    if renames != [] {
      var before, last := renames[..|renames| - 1], renames[|renames| - 1];
      OrderlyPrefix(place, root, renames);
      MovesAreDistinct(place, root, before, dirs);
      assert KeyOfOne(place, renames, dirs, place.Key(last.oldPath, dirs));
      forall m | m in place.Moves(before, dirs)
        ensures m.from != place.Key(last.oldPath, dirs) && KeyOfOne(place, renames, dirs, m.from)
      {
        assert KeyOfOne(place, before, dirs, m.from);
        var i :| 0 <= i < |before| && m.from == place.Key(before[i].oldPath, dirs);
        DifferentKeys(place, root, renames, i, |renames| - 1, dirs);
      }
    }
  }

  ghost predicate KeyOfOne(place: Place, renames: seq<Rename>, dirs: bool, key: string) {
    exists i :: 0 <= i < |renames| && key == place.Key(renames[i].oldPath, dirs)
  }

  lemma MovesOfIsSeparated(place: Place, root: string, r: Rename, dirs: bool)
    requires IsPrefix(place.sipPath, root) && Sound(root, r)
    ensures Separated(place.Normalize(root), place.MovesOf(r, dirs))
    ensures r.wasChanged <==> !CleanBelow(place.Normalize(root), place.Key(r.oldPath, dirs))
  {
    KeyCleanness(place, root, r.oldPath, dirs);
    KeyCleanness(place, root, r.newPath, dirs);
  }

  lemma MovesHold(place: Place, root: string, renames: seq<Rename>, dirs: bool)
    requires Orderly(place, root, renames)
    ensures Separated(place.Normalize(root), place.Moves(renames, dirs)) && DistinctMoves(place.Moves(renames, dirs))
  {
    MovesAreSeparated(place, root, renames, dirs);
    MovesAreDistinct(place, root, renames, dirs);
  }

  lemma OrderlyUpTo(place: Place, root: string, renames: seq<Rename>, k: nat)
    requires Orderly(place, root, renames) && k <= |renames|
    ensures Orderly(place, root, renames[..k])
  {
    assert OldPaths(renames[..k]) == OldPaths(renames)[..k];
  }

  /** The next tuple adds its move, if any, and the moves stay distinct and apart. */
  lemma {:induction false} NextMoves(
    place: Place, root: string, all: seq<Rename>, seen: seq<Rename>, next: Rename, dirs: bool)
    requires Orderly(place, root, all) && seen + [next] <= all
    ensures var moves := place.Moves(seen, dirs) + place.MovesOf(next, dirs);
            && place.Moves(seen + [next], dirs) == moves
            && Separated(place.Normalize(root), moves) && DistinctMoves(moves)
            && (!(next.wasChanged && next.isDir == dirs) ==> moves == place.Moves(seen, dirs))
  {
    assert all[..|seen| + 1] == seen + [next];
    assert (seen + [next])[..|seen|] == seen;
    OrderlyUpTo(place, root, all, |seen| + 1);
    MovesHold(place, root, seen + [next], dirs);
  }

  lemma OrderlyPrefix(place: Place, root: string, renames: seq<Rename>)
    requires Orderly(place, root, renames) && renames != []
    ensures Orderly(place, root, renames[..|renames| - 1])
  {
    var before := renames[..|renames| - 1];
    assert OldPaths(before) == OldPaths(renames)[..|renames| - 1];
  }

  lemma DifferentKeys(place: Place, root: string, renames: seq<Rename>, i: nat, j: nat, dirs: bool)
    requires Orderly(place, root, renames) && i < j < |renames|
    ensures place.Key(renames[i].oldPath, dirs) != place.Key(renames[j].oldPath, dirs)
  {
    assert Sound(root, renames[i]) && Sound(root, renames[j]);
    assert OldPaths(renames)[i].0 != OldPaths(renames)[j].0;
    if place.Key(renames[i].oldPath, dirs) == place.Key(renames[j].oldPath, dirs) {
      KeyInjective(place, root, renames[i].oldPath, renames[j].oldPath, dirs);
      assert false;
    }
  }

  // ---------------------------------------------------------------- the NameChanger object

  /** What a sequence of passes, one per batch, has done to the records so far: exactly what one pass
      with all the moves applied so far would have done. */
  ghost predicate AppliedOnce(
    rows: seq<Row>, events: seq<ChangeEvent>, rows0: seq<Row>, events0: seq<ChangeEvent>, index: map<string, string>)
  {
    && rows == Relocate(rows0, index)
    && multiset(events) == multiset(events0) + multiset(EventsOf(rows0, index))
  }

  /** One more batch keeps that. */
  lemma {:induction false} BatchAppliedOnce(
    rows: seq<Row>, events: seq<ChangeEvent>, rows0: seq<Row>, events0: seq<ChangeEvent>,
    root: string, applied: seq<Move>, batch: seq<Move>)
    requires AppliedOnce(rows, events, rows0, events0, Index(applied))
    requires DistinctMoves(applied + batch) && Separated(root, applied + batch)
    ensures AppliedOnce(
              Relocate(rows, Index(batch)), events + EventsOf(rows, Index(batch)), rows0, events0,
              Index(applied + batch))
  {
    IndexConcat(applied, batch);
    SeparatedMapsAreDisjoint(root, applied, batch);
    TwoPassesAreOne(rows0, Index(applied), Index(batch));
  }

  lemma {:induction false} BatchRelocatedOnce(rows0: seq<Row>, root: string, applied: seq<Move>, batch: seq<Move>)
    requires DistinctMoves(applied + batch) && Separated(root, applied + batch)
    ensures Relocate(Relocate(rows0, Index(applied)), Index(batch)) == Relocate(rows0, Index(applied + batch))
  {
    IndexConcat(applied, batch);
    SeparatedMapsAreDisjoint(root, applied, batch);
    TwoPassesAreOne(rows0, Index(applied), Index(batch));
  }

  lemma {:induction false} SeparatedMapsAreDisjoint(root: string, applied: seq<Move>, batch: seq<Move>)
    requires DistinctMoves(applied + batch) && Separated(root, applied + batch)
    ensures Index(applied).Keys !! Index(batch).Keys && Index(applied).Values !! Index(batch).Keys
  {
    var a, b := Index(applied), Index(batch);
    assert forall i | 0 <= i < |applied| :: (applied + batch)[i] == applied[i];
    assert forall i | 0 <= i < |batch| :: (applied + batch)[|applied| + i] == batch[i];
    IndexHolds(applied);
    IndexHolds(batch);
    forall k | k in b ensures k !in a && !CleanBelow(root, k) {
      var j :| 0 <= j < |batch| && batch[j].from == k;
    }
    forall k | k in a ensures CleanBelow(root, a[k]) {
      var i :| 0 <= i < |applied| && applied[i].from == k;
    }
  }

  // ---------------------------------------------------------------- batches

  /** Of n changes, how many have been written: a batch is written as soon as it is full. */
  function Written(n: nat, size: nat): (w: nat)
    ensures w <= n
  {
    if n == 0 then 0
    else
      var w := Written(n - 1, size);
      if n - w >= size then n else w
  }

  lemma NextRemainder(n: nat, size: nat)
    requires size > 0
    ensures (n + 1) % size == if n % size + 1 == size then 0 else n % size + 1
  {
    var q, r := n / size, n % size;
    if r + 1 == size {
      assert n + 1 == (q + 1) * size;
      Remainder(q + 1, 0, size);
    } else {
      assert n + 1 == q * size + (r + 1);
      Remainder(q, r + 1, size);
    }
  }

  lemma Remainder(q: nat, r: nat, size: nat)
    requires r < size
    ensures (q * size + r) % size == r
  {
    var n := q * size + r;
    var d := n / size - q;
    assert d * size == r - n % size;
    assert d <= -1 ==> d * size <= 0 - size;
    assert d >= 1 ==> d * size >= size;
  }

  /** Only the last batch, which is not full, waits. */
  lemma {:induction false} WholeBatches(n: nat, size: nat)
    requires size > 0
    ensures Written(n, size) == n - n % size
  {
    if n > 0 {
      WholeBatches(n - 1, size);
      NextRemainder(n - 1, size);
    }
  }

  lemma {:induction false} IndexSize(moves: seq<Move>)
    requires DistinctMoves(moves)
    ensures |Index(moves)| == |moves|
  {
    if moves != [] {
      var before, last := moves[..|moves| - 1], moves[|moves| - 1];
      IndexSize(before);
      IndexHolds(before);
      assert last.from !in Index(before);
      assert Index(moves).Keys == Index(before).Keys + {last.from};
    }
  }

  lemma SliceThen(moves: seq<Move>, next: Move, n: nat)
    requires n <= |moves|
    ensures (moves + [next])[..n] == moves[..n] && (moves + [next])[n..] == moves[n..] + [next]
    ensures moves[..n] + (moves[n..] + [next]) == moves + [next]
  {
  }

  lemma IndexThen(batch: seq<Move>, next: Move)
    ensures Index(batch + [next]) == Index(batch)[next.from := next.to]
  {
    assert (batch + [next])[..|batch|] == batch;
  }

  /** The moves made so far, the next one, and the batch it joins when n have been written. */
  lemma NextBatch(moves: seq<Move>, next: Move, n: nat)
    requires DistinctMoves(moves + [next]) && n <= |moves|
    ensures var batch := moves[n..] + [next];
            && Index(batch) == Index(moves[n..])[next.from := next.to]
            && |Index(batch)| == |moves| + 1 - n
            && moves[..n] + batch == moves + [next]
            && (moves + [next])[..n] == moves[..n] && (moves + [next])[n..] == batch
  {
    SliceThen(moves, next, n);
    IndexThen(moves[n..], next);
    IndexSize((moves + [next])[n..]);
  }

  lemma WholeBatch(moves: seq<Move>)
    ensures moves[..|moves|] == moves && moves[|moves|..] == [] && Index(moves[|moves|..]) == map[]
  {
  }

  /** The records as they were. */
  datatype Records = Records(files: seq<Row>, dirs: seq<Row>, events: seq<ChangeEvent>)

  class NameChanger {
    const batchSize: nat
    const place: Place
    const objectsDirectory: string
    const hasDirs: bool

    var filesIndex: map<string, string>
    var dirsIndex: map<string, string>

    var fileRows: seq<Row>
    var dirRows: seq<Row>
    var events: seq<ChangeEvent>

    constructor (
      batchSize: nat, sipPath: string, groupType: string, objectsDirectory: string,
      fileRows: seq<Row>, dirRows: seq<Row>, hasDirs: bool, events: seq<ChangeEvent>)
      requires groupType in {"%SIPDirectory%", "%transferDirectory%"}
      ensures this.batchSize == batchSize && place == Place(sipPath, groupType)
      ensures this.objectsDirectory == objectsDirectory && this.hasDirs == hasDirs
      ensures this.fileRows == fileRows && this.dirRows == dirRows && this.events == events
      ensures filesIndex == map[] && dirsIndex == map[]
    {
      this.batchSize, this.place, this.objectsDirectory := batchSize, Place(sipPath, groupType), objectsDirectory;
      this.fileRows, this.dirRows, this.hasDirs, this.events := fileRows, dirRows, hasDirs, events;
      filesIndex, dirsIndex := map[], map[];
    }

    method ApplyFileUpdates()
      modifies `fileRows, `filesIndex, `events
      ensures fileRows == Relocate(old(fileRows), old(filesIndex))
      ensures events == old(events) + EventsOf(old(fileRows), old(filesIndex))
      ensures filesIndex == map[]
    {
      ghost var rows := fileRows;
      var created: seq<ChangeEvent> := [];
      for i := 0 to |fileRows|
        invariant |fileRows| == |rows| && filesIndex == old(filesIndex) && events == old(events)
        invariant fileRows == Relocate(rows[..i], filesIndex) + rows[i..] && created == EventsOf(rows[..i], filesIndex)
      {
        var row := fileRows[i];
        EventsPrefix(rows, i, filesIndex);
        RelocatePrefix(rows, i, filesIndex);
        if row.live && row.location in filesIndex {
          var changed := filesIndex[row.location];
          fileRows := fileRows[i := row.(location := changed)];
          created := created + [ChangeEvent(row.id, row.location, changed)];
        }
      }
      assert rows[..|rows|] == rows;
      events := events + created;
      filesIndex := map[];
    }

    method ApplyDirUpdates()
      modifies `dirRows, `dirsIndex
      ensures dirRows == if hasDirs then Relocate(old(dirRows), old(dirsIndex)) else old(dirRows)
      ensures dirsIndex == if hasDirs then map[] else old(dirsIndex)
    {
      if !hasDirs {
        return;
      }
      ghost var rows := dirRows;
      for i := 0 to |dirRows|
        invariant |dirRows| == |rows| && dirsIndex == old(dirsIndex)
        invariant forall k | 0 <= k < |rows| :: dirRows[k] == if k < i then Relocated(rows[k], dirsIndex) else rows[k]
      {
        var row := dirRows[i];
        if row.live && row.location in dirsIndex {
          dirRows := dirRows[i := row.(location := dirsIndex[row.location])];
        }
      }
      dirsIndex := map[];
    }

    method AddFileToBatch(oldPath: string, newPath: string)
      modifies `fileRows, `filesIndex, `events
      ensures var index := old(filesIndex)[place.Key(oldPath, false) := place.Key(newPath, false)];
              if |index| >= batchSize then
                && filesIndex == map[] && fileRows == Relocate(old(fileRows), index)
                && events == old(events) + EventsOf(old(fileRows), index)
              else
                filesIndex == index && fileRows == old(fileRows) && events == old(events)
    {
      filesIndex := filesIndex[place.Normalize(oldPath) := place.Normalize(newPath)];
      if |filesIndex| >= batchSize {
        ApplyFileUpdates();
      }
    }

    method AddDirToBatch(oldPath: string, newPath: string)
      modifies `dirRows, `dirsIndex
      ensures var index := old(dirsIndex)[place.Key(oldPath, true) := place.Key(newPath, true)];
              if |index| >= batchSize && hasDirs then dirsIndex == map[] && dirRows == Relocate(old(dirRows), index)
              else dirsIndex == index && dirRows == old(dirRows)
    {
      var from, to := place.WithSlash(place.Normalize(oldPath)), place.WithSlash(place.Normalize(newPath));
      dirsIndex := dirsIndex[from := to];
      if |dirsIndex| >= batchSize {
        ApplyDirUpdates();
      }
    }

    /** Of the given moves all full batches have been written, whatever their size, and the rest waits. */
    ghost predicate FilesUpTo(moves: seq<Move>, was: Records)
      reads `filesIndex, `fileRows, `events
    {
      var n := Written(|moves|, batchSize);
      && AppliedOnce(fileRows, events, was.files, was.events, Index(moves[..n]))
      && filesIndex == Index(moves[n..])
    }

    /** The same for directories; without a query set nothing is ever written. */
    ghost predicate DirsUpTo(moves: seq<Move>, was: Records)
      reads `dirsIndex, `dirRows
    {
      var n := if hasDirs then Written(|moves|, batchSize) else 0;
      && dirRows == Relocate(was.dirs, Index(moves[..n]))
      && dirsIndex == Index(moves[n..])
    }

    /** The records after the given tuples. */
    ghost predicate UpTo(seen: seq<Rename>, was: Records)
      reads `filesIndex, `fileRows, `events, `dirsIndex, `dirRows
    {
      FilesUpTo(place.Moves(seen, false), was) && DirsUpTo(place.Moves(seen, true), was)
    }

    /** What the walk is going to yield, starting with the tuples seen so far. */
    ghost predicate Yields(all: seq<Rename>, seen: seq<Rename>) {
      Orderly(place, objectsDirectory, all) && seen <= all
    }

    /** change_objects: clean the tree up, and carry every change over to the records as it is yielded. After an
        exception the batches written stay written and the pending ones stay in the indexes. */
    method ChangeObjects(u: Unidecode, max: nat, dir: seq<Node>) returns (r: Outcome)
      requires KeepsAscii(u) && ValidDir(dir)
      requires IsPrefix(place.sipPath, objectsDirectory) && filesIndex == map[] && dirsIndex == map[]
      modifies this
      ensures r == ChangeEntries(u, max, Names(dir), dir, objectsDirectory, objectsDirectory)
      ensures r.error.Some? ==>
                var was := Records(old(fileRows), old(dirRows), old(events));
                UpTo(r.renames, was)
      ensures r.error.None? ==>
                var files, dirs := Index(place.Moves(r.renames, false)), Index(place.Moves(r.renames, true));
                && AppliedOnce(fileRows, events, old(fileRows), old(events), files)
                && filesIndex == map[]
                && dirRows == (if hasDirs then Relocate(old(dirRows), dirs) else old(dirRows))
                && dirsIndex == if hasDirs then map[] else dirs
    {
      ghost var was := Records(fileRows, dirRows, events);
      EmptyPass(fileRows);
      EmptyPass(dirRows);
      RenamesAreOrderly(u, max, dir, place, objectsDirectory);
      ghost var all := ChangeEntries(u, max, Names(dir), dir, objectsDirectory, objectsDirectory).renames;
      assert [] + all == all;
      r := ChangeTree(u, max, dir, objectsDirectory, objectsDirectory, [], all, was);
      if r.error.Some? {
        return;
      }
      FinishBatches(all, was);
    }

    /** The generator change_tree, with the loop over its tuples run at every yield. */
    method ChangeTree(
      u: Unidecode, max: nat, dir: seq<Node>, start: string, oldStart: string,
      ghost seen: seq<Rename>, ghost all: seq<Rename>, ghost was: Records)
      returns (r: Outcome)
      requires ValidDir(dir) && UpTo(seen, was)
      requires Yields(all, seen + ChangeEntries(u, max, Names(dir), dir, start, oldStart).renames)
      modifies `fileRows, `filesIndex, `events, `dirRows, `dirsIndex
      ensures r == ChangeEntries(u, max, Names(dir), dir, start, oldStart)
      ensures UpTo(seen + r.renames, was)
      decreases dir, 0
    {
      var names, done := Names(dir), Outcome([], [], None);
      assert dir[0..] == dir && seen + [] == seen;
      ThenNothing(ChangeEntries(u, max, names, dir, start, oldStart));
      for i := 0 to |dir|
        invariant ValidDir(dir[i..]) && done.error.None?
        invariant UpTo(seen + done.renames, was)
        invariant Then(done, ChangeEntries(u, max, names, dir[i..], start, oldStart))
                  == ChangeEntries(u, max, Names(dir), dir, start, oldStart)
      {
        ghost var rest := ChangeEntries(u, max, names, dir[i..], start, oldStart);
        FirstRound(u, max, names, dir, i, start, oldStart);
        SeqAssoc(seen, done.renames, rest.renames);
        YieldsFirst(
          all, seen + done.renames, rest.renames, ChangeOne(u, max, names, dir[i], start, oldStart).renames);
        var round := ChangeEntry(u, max, names, dir[i], start, oldStart, seen + done.renames, all, was);
        SeqAssoc(seen, done.renames, round.renames);
        if round.error.Some? {
          return Outcome(done.dir + ([round.node] + dir[i + 1..]), done.renames + round.renames, round.error);
        }
        names := names - {dir[i].name} + {round.node.name};
        ThenThen(done, round, ChangeEntries(u, max, names, dir[i + 1..], start, oldStart));
        done := Outcome(done.dir + [round.node], done.renames + round.renames, None);
      }
      assert dir[|dir|..] == [];
      assert done.dir + [] == done.dir && done.renames + [] == done.renames;
      r := done;
    }

    lemma YieldsFirst(all: seq<Rename>, seen: seq<Rename>, rest: seq<Rename>, first: seq<Rename>)
      requires Yields(all, seen + rest) && first <= rest
      ensures Yields(all, seen + first)
    {
    }

    /** The body of its loop over the directory entries. */
    method ChangeEntry(
      u: Unidecode, max: nat, names: set<string>, node: Node, start: string, oldStart: string,
      ghost seen: seq<Rename>, ghost all: seq<Rename>, ghost was: Records)
      returns (r: Round)
      requires ValidNode(node) && UpTo(seen, was)
      requires Yields(all, seen + ChangeOne(u, max, names, node, start, oldStart).renames)
      modifies `fileRows, `filesIndex, `events, `dirRows, `dirsIndex
      ensures r == ChangeOne(u, max, names, node, start, oldStart)
      ensures UpTo(seen + r.renames, was)
      decreases node, 1
    {
      var moved := ChangePath(u, names, node.name, max);
      assert seen + [] == seen;
      if moved.Failure? {
        return Round(node, [], Some(moved.error));
      }
      var newPath, oldPath := Below(start, moved.value), Below(oldStart, node.name);
      var changed := Rename(oldPath, newPath, node.Dir?, newPath != oldPath);
      YieldsFirst(all, seen, ChangeOne(u, max, names, node, start, oldStart).renames, [changed]);
      Record(changed, seen, all, was);
      var inner := Outcome([], [], None);
      if node.Dir? {
        ghost var later := ChangeEntries(u, max, Names(node.entries), node.entries, newPath, oldPath).renames;
        SeqAssoc(seen, [changed], later);
        inner := ChangeTree(u, max, node.entries, newPath, oldPath, seen + [changed], all, was);
      }
      SeqAssoc(seen, [changed], inner.renames);
      r := Round(Moved(node, moved.value, inner.dir), [changed] + inner.renames, inner.error);
    }

    /** What change_objects does with one tuple. */
    method Record(rename: Rename, ghost seen: seq<Rename>, ghost all: seq<Rename>, ghost was: Records)
      requires UpTo(seen, was) && Yields(all, seen + [rename])
      modifies `fileRows, `filesIndex, `events, `dirRows, `dirsIndex
      ensures UpTo(seen + [rename], was)
    {
      NextMoves(place, objectsDirectory, all, seen, rename, false);
      NextMoves(place, objectsDirectory, all, seen, rename, true);
      if !rename.wasChanged {
        return;
      }
      if rename.isDir {
        RecordDir(rename, place.Moves(seen, true), was);
      } else {
        RecordFile(rename, place.Moves(seen, false), was);
      }
    }

    method RecordFile(rename: Rename, ghost moves: seq<Move>, ghost was: Records)
      requires FilesUpTo(moves, was) && rename.wasChanged && !rename.isDir
      requires DistinctMoves(moves + place.MovesOf(rename, false))
      requires Separated(place.Normalize(objectsDirectory), moves + place.MovesOf(rename, false))
      modifies `fileRows, `filesIndex, `events
      ensures FilesUpTo(moves + place.MovesOf(rename, false), was)
    {
      ghost var next := Move(place.Key(rename.oldPath, false), place.Key(rename.newPath, false));
      ghost var n := Written(|moves|, batchSize);
      NextBatch(moves, next, n);
      WholeBatch(moves + [next]);
      BatchAppliedOnce(
        fileRows, events, was.files, was.events, place.Normalize(objectsDirectory), moves[..n], moves[n..] + [next]);
      AddFileToBatch(rename.oldPath, rename.newPath);
    }

    method RecordDir(rename: Rename, ghost moves: seq<Move>, ghost was: Records)
      requires DirsUpTo(moves, was) && rename.wasChanged && rename.isDir
      requires DistinctMoves(moves + place.MovesOf(rename, true))
      requires Separated(place.Normalize(objectsDirectory), moves + place.MovesOf(rename, true))
      modifies `dirRows, `dirsIndex
      ensures DirsUpTo(moves + place.MovesOf(rename, true), was)
    {
      ghost var next := Move(place.Key(rename.oldPath, true), place.Key(rename.newPath, true));
      if hasDirs {
        ghost var n := Written(|moves|, batchSize);
        NextBatch(moves, next, n);
        WholeBatch(moves + [next]);
        BatchRelocatedOnce(was.dirs, place.Normalize(objectsDirectory), moves[..n], moves[n..] + [next]);
      } else {
        assert moves[0..] == moves && (moves + [next])[0..] == moves + [next];
        assert (moves + [next])[..|moves|] == moves;
      }
      AddDirToBatch(rename.oldPath, rename.newPath);
    }

    /** The remainder after all full batches. */
    method FinishBatches(ghost all: seq<Rename>, ghost was: Records)
      requires UpTo(all, was) && Orderly(place, objectsDirectory, all)
      modifies `fileRows, `filesIndex, `events, `dirRows, `dirsIndex
      ensures AppliedOnce(fileRows, events, was.files, was.events, Index(place.Moves(all, false)))
      ensures filesIndex == map[]
      ensures dirRows == if hasDirs then Relocate(was.dirs, Index(place.Moves(all, true))) else was.dirs
      ensures dirsIndex == if hasDirs then map[] else Index(place.Moves(all, true))
    {
      MovesHold(place, objectsDirectory, all, false);
      MovesHold(place, objectsDirectory, all, true);
      FinishFiles(place.Moves(all, false), was);
      FinishDirs(place.Moves(all, true), was);
    }

    method FinishFiles(ghost moves: seq<Move>, ghost was: Records)
      requires FilesUpTo(moves, was) && DistinctMoves(moves) && Separated(place.Normalize(objectsDirectory), moves)
      modifies `fileRows, `filesIndex, `events
      ensures AppliedOnce(fileRows, events, was.files, was.events, Index(moves)) && filesIndex == map[]
    {
      ghost var n := Written(|moves|, batchSize);
      assert moves[..n] + moves[n..] == moves;
      BatchAppliedOnce(
        fileRows, events, was.files, was.events, place.Normalize(objectsDirectory), moves[..n], moves[n..]);
      ApplyFileUpdates();
    }

    method FinishDirs(ghost moves: seq<Move>, ghost was: Records)
      requires DirsUpTo(moves, was) && DistinctMoves(moves) && Separated(place.Normalize(objectsDirectory), moves)
      modifies `dirRows, `dirsIndex
      ensures dirRows == if hasDirs then Relocate(was.dirs, Index(moves)) else was.dirs
      ensures dirsIndex == if hasDirs then map[] else Index(moves)
    {
      ghost var n := if hasDirs then Written(|moves|, batchSize) else 0;
      assert moves[..n] + moves[n..] == moves && moves[0..] == moves;
      BatchRelocatedOnce(was.dirs, place.Normalize(objectsDirectory), moves[..n], moves[n..]);
      EmptyPass(was.dirs);
      ApplyDirUpdates();
    }
  }

  // ---------------------------------------------------------------- rounds of the walk

  function Then(done: Outcome, rest: Outcome): Outcome {
    Outcome(done.dir + rest.dir, done.renames + rest.renames, rest.error)
  }

  lemma ThenNothing(rest: Outcome)
    ensures Then(Outcome([], [], None), rest) == rest
  {
    assert [] + rest.dir == rest.dir && [] + rest.renames == rest.renames;
  }

  lemma ThenThen(done: Outcome, round: Round, rest: Outcome)
    ensures Then(done, Outcome([round.node] + rest.dir, round.renames + rest.renames, rest.error))
            == Then(Outcome(done.dir + [round.node], done.renames + round.renames, None), rest)
  {
    assert done.dir + ([round.node] + rest.dir) == (done.dir + [round.node]) + rest.dir;
    assert done.renames + (round.renames + rest.renames) == (done.renames + round.renames) + rest.renames;
  }

  lemma FirstRound(
    u: Unidecode, max: nat, names: set<string>, dir: seq<Node>, i: nat, start: string, oldStart: string)
    requires i < |dir| && ValidDir(dir[i..])
    ensures ValidNode(dir[i]) && ValidDir(dir[i + 1..])
    ensures var first := ChangeOne(u, max, names, dir[i], start, oldStart);
            var names' := names - {dir[i].name} + {first.node.name};
            && first.renames <= ChangeEntries(u, max, names, dir[i..], start, oldStart).renames
            && ChangeEntries(u, max, names, dir[i..], start, oldStart)
               == if first.error.Some? then Outcome([first.node] + dir[i + 1..], first.renames, first.error)
                  else var rest := ChangeEntries(u, max, names', dir[i + 1..], start, oldStart);
                       Outcome([first.node] + rest.dir, first.renames + rest.renames, rest.error)
  {
    assert dir[i..][0] == dir[i] && dir[i..][1..] == dir[i + 1..];
  }

  lemma {:induction false} RenamesAreOrderly(u: Unidecode, max: nat, dir: seq<Node>, place: Place, root: string)
    requires KeepsAscii(u) && ValidDir(dir) && IsPrefix(place.sipPath, root)
    ensures Orderly(place, root, ChangeEntries(u, max, Names(dir), dir, root, root).renames)
  {
    ChangeTreeGuarantees(u, max, dir, root);
    var o := ChangeEntries(u, max, Names(dir), dir, root, root);
    ListingProper(dir, root, root);
    ListingProper(o.dir, root, root);
    forall i | 0 <= i < |o.renames| ensures Sound(root, o.renames[i]) {
      assert o.renames[i] in o.renames;
      assert OldPaths(o.renames)[i].0 == o.renames[i].oldPath && NewPaths(o.renames)[i].0 == o.renames[i].newPath;
    }
  }

  // ---------------------------------------------------------------- records and tree agree afterwards

  lemma {:induction false} ChangedEntryMoves(place: Place, renames: seq<Rename>, i: nat, dirs: bool)
    requires i < |renames| && renames[i].wasChanged && renames[i].isDir == dirs
    ensures Move(place.Key(renames[i].oldPath, dirs), place.Key(renames[i].newPath, dirs)) in place.Moves(renames, dirs)
  {
    if i < |renames| - 1 {
      ChangedEntryMoves(place, renames[..|renames| - 1], i, dirs);
    }
  }

  lemma LookUp(place: Place, root: string, renames: seq<Rename>, i: nat, dirs: bool)
    requires Orderly(place, root, renames) && i < |renames| && renames[i].isDir == dirs
    ensures var index := Index(place.Moves(renames, dirs));
            var (from, to) := (place.Key(renames[i].oldPath, dirs), place.Key(renames[i].newPath, dirs));
            if from in index then index[from] == to else from == to
  {
    var moves := place.Moves(renames, dirs);
    MovesAreSeparated(place, root, renames, dirs);
    MovesAreDistinct(place, root, renames, dirs);
    IndexHolds(moves);
    assert Sound(root, renames[i]);
    MovesOfIsSeparated(place, root, renames[i], dirs);
    if renames[i].wasChanged {
      ChangedEntryMoves(place, renames, i, dirs);
    }
  }

  /** A record that pointed at an entry of the tree points at that same entry under its new name. */
  lemma {:induction false} RecordsFollowTheTree(
    u: Unidecode, max: nat, dir: seq<Node>, place: Place, root: string, row: Row, i: nat)
    requires KeepsAscii(u) && ValidDir(dir) && IsPrefix(place.sipPath, root)
    requires ChangeEntries(u, max, Names(dir), dir, root, root).error.None?
    requires i < |Listing(dir, root)| && row.live
    requires row.location == place.Key(Listing(dir, root)[i].0, Listing(dir, root)[i].1)
    ensures var o := ChangeEntries(u, max, Names(dir), dir, root, root);
            var dirs := Listing(dir, root)[i].1;
            && |Listing(o.dir, root)| == |Listing(dir, root)| && Listing(o.dir, root)[i].1 == dirs
            && Relocated(row, Index(place.Moves(o.renames, dirs))).location
              == place.Key(Listing(o.dir, root)[i].0, dirs)
  {
    var o := ChangeEntries(u, max, Names(dir), dir, root, root);
    ChangeTreeGuarantees(u, max, dir, root);
    RenamesAreOrderly(u, max, dir, place, root);
    assert OldPaths(o.renames)[i] == (o.renames[i].oldPath, o.renames[i].isDir);
    assert NewPaths(o.renames)[i] == (o.renames[i].newPath, o.renames[i].isDir);
    LookUp(place, root, o.renames, i, o.renames[i].isDir);
  }

  // ---------------------------------------------------------------- said of paths, records and events

  /** Where the database keeps a path of the package: the group type, the rest of the path, and a slash after a
      directory. */
  predicate KeptAt(place: Place, path: string, dirs: bool, location: string) {
    && IsPrefix(place.sipPath, path)
    && location == place.groupType + path[|place.sipPath|..] + if dirs then "/" else ""
  }

  lemma KeyIsKept(place: Place, root: string, path: string, dirs: bool, location: string)
    requires IsPrefix(place.sipPath, root) && Proper(root, path)
    ensures place.Key(path, dirs) == location <==> KeptAt(place, path, dirs, location)
  {
    assert path[..|place.sipPath|] == root[..|place.sipPath|];
    var rest := path[|place.sipPath|..];
    assert rest != "" && rest[|rest| - 1] == path[|path| - 1];
    assert place.groupType + rest + "" == place.groupType + rest;
  }

  lemma {:induction false} AboutCounts(events: seq<ChangeEvent>, e: ChangeEvent)
    ensures multiset(events)[e] == multiset(EventsAbout(events, e.row))[e]
  {
    if events != [] {
      AboutCounts(events[1..], e);
      assert events == [events[0]] + events[1..];
    }
  }

  /** The event tells of a record whose location changed. */
  predicate TellsOf(before: seq<Row>, after: seq<Row>, e: ChangeEvent, k: nat)
    requires |after| == |before|
  {
    && k < |before| && e == ChangeEvent(before[k].id, before[k].location, after[k].location)
    && after[k].location != before[k].location
  }

  ghost predicate Told(before: seq<Row>, after: seq<Row>, e: ChangeEvent)
    requires |after| == |before|
  {
    exists k :: TellsOf(before, after, e, k)
  }

  lemma EventsTell(rows: seq<Row>, index: map<string, string>, e: ChangeEvent)
    requires DistinctRows(rows) && forall from | from in index :: index[from] != from
    ensures multiset(EventsOf(rows, index))[e]
            == if Told(rows, Relocate(rows, index), e) then 1 else 0
  {
    AboutCounts(EventsOf(rows, index), e);
    if k :| 0 <= k < |rows| && rows[k].id == e.row {
      OneEventPerMove(rows, index, k);
      assert TellsOf(rows, Relocate(rows, index), e, k) <==> EventsAbout(EventsOf(rows, index), e.row) == [e];
    } else {
      NoEventsAbout(rows, index, e.row);
    }
  }

  /** One record after a walk that got through: a record of the unit that was kept at the old path of an entry is kept
      at its new path; every other one stays as it is. */
  ghost predicate RowFollows(
    place: Place, before: seq<(string, bool)>, now: seq<(string, bool)>, dirs: bool, row: Row, after: Row)
    requires |before| == |now|
  {
    && after.id == row.id && after.live == row.live
    && (forall i | && 0 <= i < |before| && before[i].1 == dirs && row.live
                   && KeptAt(place, before[i].0, dirs, row.location) ::
          KeptAt(place, now[i].0, dirs, after.location))
    && (after != row ==>
          row.live && exists i :: && 0 <= i < |before| && before[i].1 == dirs
                                  && KeptAt(place, before[i].0, dirs, row.location))
  }

  lemma RowAfterWalk(u: Unidecode, max: nat, dir: seq<Node>, place: Place, root: string, dirs: bool, row: Row)
    requires KeepsAscii(u) && ValidDir(dir) && IsPrefix(place.sipPath, root)
    requires ChangeEntries(u, max, Names(dir), dir, root, root).error.None?
    ensures var o := ChangeEntries(u, max, Names(dir), dir, root, root);
            && |Listing(o.dir, root)| == |Listing(dir, root)|
            && RowFollows(
                 place, Listing(dir, root), Listing(o.dir, root), dirs, row,
                 Relocated(row, Index(place.Moves(o.renames, dirs))))
  {
    var o := ChangeEntries(u, max, Names(dir), dir, root, root);
    var before, now := Listing(dir, root), Listing(o.dir, root);
    var index := Index(place.Moves(o.renames, dirs));
    WalkSplits(u, max, dir, place, root);
    ChangeTreeGuarantees(u, max, dir, root);
    RenamesAreOrderly(u, max, dir, place, root);
    assert |o.renames| == |OldPaths(o.renames)| == |before|;
    forall i | 0 <= i < |before| && before[i].1 == dirs && row.live && KeptAt(place, before[i].0, dirs, row.location)
      ensures KeptAt(place, now[i].0, dirs, Relocated(row, index).location)
    {
      KeyIsKept(place, root, before[i].0, dirs, row.location);
      KeyIsKept(place, root, now[i].0, dirs, Relocated(row, index).location);
      LookUp(place, root, o.renames, i, dirs);
    }
    if Relocated(row, index) != row {
      var i := FoundAmong(place, root, o.renames, dirs, row.location);
      KeyIsKept(place, root, before[i].0, dirs, row.location);
    }
  }

  lemma FoundAmong(place: Place, root: string, renames: seq<Rename>, dirs: bool, location: string) returns (i: nat)
    requires Orderly(place, root, renames) && location in Index(place.Moves(renames, dirs))
    ensures i < |renames| && renames[i].isDir == dirs && place.Key(renames[i].oldPath, dirs) == location
  {
    var moves := place.Moves(renames, dirs);
    MovesAreDistinct(place, root, renames, dirs);
    IndexHolds(moves);
    var p :| 0 <= p < |moves| && moves[p].from == location;
    i := MoveOrigin(place, renames, dirs, p);
    MoveAt(place, renames, i, dirs);
  }

  lemma NeverOnItself(root: string, moves: seq<Move>)
    requires DistinctMoves(moves) && Separated(root, moves)
    ensures forall from | from in Index(moves) :: Index(moves)[from] != from
  {
    IndexHolds(moves);
  }

  lemma NewEventsTell(
    rows: seq<Row>, events: seq<ChangeEvent>, rows0: seq<Row>, events0: seq<ChangeEvent>, index: map<string, string>,
    e: ChangeEvent)
    requires AppliedOnce(rows, events, rows0, events0, index) && DistinctRows(rows0)
    requires forall from | from in index :: index[from] != from
    ensures |rows| == |rows0|
    ensures multiset(events)[e] == multiset(events0)[e] + if Told(rows0, rows, e) then 1 else 0
  {
    EventsTell(rows0, index, e);
  }

  /** The records of one kind after a walk that got through. */
  ghost predicate AllFollow(
    place: Place, before: seq<(string, bool)>, now: seq<(string, bool)>, dirs: bool, rows0: seq<Row>, rows: seq<Row>)
    requires |before| == |now|
  {
    |rows| == |rows0| && forall k | 0 <= k < |rows0| :: RowFollows(place, before, now, dirs, rows0[k], rows[k])
  }

  /** change_objects when it gets through, said of paths, records and events: every record of the unit follows its
      entry, all others stay, and there is one new event for each file record whose location changed, with the old
      location and the new one, and no other. */
  lemma RecordsAndEvents(
    u: Unidecode, max: nat, dir: seq<Node>, place: Place, root: string, rows0: seq<Row>, events0: seq<ChangeEvent>,
    rows: seq<Row>, events: seq<ChangeEvent>, e: ChangeEvent)
    requires KeepsAscii(u) && ValidDir(dir) && IsPrefix(place.sipPath, root) && DistinctRows(rows0)
    requires var o := ChangeEntries(u, max, Names(dir), dir, root, root);
             o.error.None? && AppliedOnce(rows, events, rows0, events0, Index(place.Moves(o.renames, false)))
    ensures var o := ChangeEntries(u, max, Names(dir), dir, root, root);
            && |Listing(o.dir, root)| == |Listing(dir, root)|
            && AllFollow(place, Listing(dir, root), Listing(o.dir, root), false, rows0, rows)
            && multiset(events)[e]
               == multiset(events0)[e] + if Told(rows0, rows, e) then 1 else 0
  {
    var o := ChangeEntries(u, max, Names(dir), dir, root, root);
    var moves := place.Moves(o.renames, false);
    RenamesAreOrderly(u, max, dir, place, root);
    MovesHold(place, root, o.renames, false);
    NeverOnItself(place.Normalize(root), moves);
    NewEventsTell(rows, events, rows0, events0, Index(moves), e);
    RowsFollow(u, max, dir, place, root, false, rows0);
  }

  /** The records of either kind. */
  lemma RowsFollow(
    u: Unidecode, max: nat, dir: seq<Node>, place: Place, root: string, dirs: bool, rows0: seq<Row>)
    requires KeepsAscii(u) && ValidDir(dir) && IsPrefix(place.sipPath, root)
    requires ChangeEntries(u, max, Names(dir), dir, root, root).error.None?
    ensures var o := ChangeEntries(u, max, Names(dir), dir, root, root);
            && |Listing(o.dir, root)| == |Listing(dir, root)|
            && AllFollow(
                 place, Listing(dir, root), Listing(o.dir, root), dirs, rows0,
                 Relocate(rows0, Index(place.Moves(o.renames, dirs))))
  {
    var o := ChangeEntries(u, max, Names(dir), dir, root, root);
    WalkSplits(u, max, dir, place, root);
    forall k | 0 <= k < |rows0|
      ensures RowFollows(
                place, Listing(dir, root), Listing(o.dir, root), dirs, rows0[k],
                Relocate(rows0, Index(place.Moves(o.renames, dirs)))[k])
    {
      RowAfterWalk(u, max, dir, place, root, dirs, rows0[k]);
    }
  }

  // ---------------------------------------------------------------- and after an exception

  function Found(index: map<string, string>, key: string): string {
    if key in index then index[key] else key
  }

  /** For each entry of one kind, a record at its former location is now at its present one. */
  ghost predicate Agrees(
    place: Place, before: seq<(string, bool)>, now: seq<(string, bool)>, dirs: bool, index: map<string, string>)
    requires |before| == |now|
  {
    forall i | 0 <= i < |before| && before[i].1 == dirs ::
      Found(index, place.Key(before[i].0, dirs)) == place.Key(now[i].0, dirs)
  }

  lemma {:induction false} MovesConcat(place: Place, a: seq<Rename>, b: seq<Rename>, dirs: bool)
    ensures place.Moves(a + b, dirs) == place.Moves(a, dirs) + place.Moves(b, dirs)
  {
    if b == [] {
      assert a + b == a;
    } else {
      var front, last := b[..|b| - 1], b[|b| - 1];
      assert (a + b)[..|a + b| - 1] == a + front;
      MovesConcat(place, a, front, dirs);
      SeqAssoc(place.Moves(a, dirs), place.Moves(front, dirs), place.MovesOf(last, dirs));
    }
  }

  /** The move of a changed entry comes after those of the changed entries before it. */
  lemma MoveAt(place: Place, renames: seq<Rename>, i: nat, dirs: bool)
    requires i < |renames| && renames[i].wasChanged && renames[i].isDir == dirs
    ensures var (moves, p) := (place.Moves(renames, dirs), |place.Moves(renames[..i], dirs)|);
            p < |moves|
            && moves[p] == Move(place.Key(renames[i].oldPath, dirs), place.Key(renames[i].newPath, dirs))
  {
    assert renames == renames[..i] + ([renames[i]] + renames[i + 1..]);
    MovesConcat(place, renames[..i], [renames[i]] + renames[i + 1..], dirs);
    MovesConcat(place, [renames[i]], renames[i + 1..], dirs);
    assert [renames[i]][..0] == [] && place.Moves([], dirs) == [];
    assert place.Moves([renames[i]], dirs) == [] + place.MovesOf(renames[i], dirs);
  }

  /** The entry a move comes from. */
  lemma {:induction false} MoveOrigin(place: Place, renames: seq<Rename>, dirs: bool, p: nat) returns (i: nat)
    requires p < |place.Moves(renames, dirs)|
    ensures i < |renames| && renames[i].wasChanged && renames[i].isDir == dirs
    ensures |place.Moves(renames[..i], dirs)| == p
  {
    var front := renames[..|renames| - 1];
    if p < |place.Moves(front, dirs)| {
      i := MoveOrigin(place, front, dirs, p);
      assert front[..i] == renames[..i];
    } else {
      i := |front|;
    }
  }

  /** A changed entry is found at its new place exactly if its move is among the first n. */
  lemma ChangedAgrees(place: Place, root: string, renames: seq<Rename>, i: nat, n: nat)
    requires Orderly(place, root, renames) && i < |renames| && renames[i].wasChanged
    requires n <= |place.Moves(renames, renames[i].isDir)|
    ensures var (r, dirs) := (renames[i], renames[i].isDir);
            Found(Index(place.Moves(renames, dirs)[..n]), place.Key(r.oldPath, dirs)) == place.Key(r.newPath, dirs)
            <==> |place.Moves(renames[..i], dirs)| < n
  {
    var dirs := renames[i].isDir;
    var moves, p := place.Moves(renames, dirs), |place.Moves(renames[..i], dirs)|;
    MovesHold(place, root, renames, dirs);
    MoveAt(place, renames, i, dirs);
    AmongFirst(moves, p, n);
    assert !CleanBelow(place.Normalize(root), moves[p].from) && CleanBelow(place.Normalize(root), moves[p].to);
  }

  lemma AmongFirst(moves: seq<Move>, p: nat, n: nat)
    requires DistinctMoves(moves) && p < |moves| && n <= |moves|
    ensures if p < n then moves[p].from in Index(moves[..n]) && Index(moves[..n])[moves[p].from] == moves[p].to
            else moves[p].from !in Index(moves[..n])
  {
    var first := moves[..n];
    IndexHolds(first);
    if p < n {
      assert first[p] == moves[p];
    } else {
      forall j | 0 <= j < n ensures first[j].from != moves[p].from {
      }
    }
  }

  /** An unchanged entry is found where it was. */
  lemma UnchangedAgrees(place: Place, root: string, renames: seq<Rename>, i: nat, n: nat)
    requires Orderly(place, root, renames) && i < |renames| && !renames[i].wasChanged
    requires n <= |place.Moves(renames, renames[i].isDir)|
    ensures var (r, dirs) := (renames[i], renames[i].isDir);
            Found(Index(place.Moves(renames, dirs)[..n]), place.Key(r.oldPath, dirs)) == place.Key(r.newPath, dirs)
  {
    var r, dirs := renames[i], renames[i].isDir;
    var moves := place.Moves(renames, dirs);
    MovesHold(place, root, renames, dirs);
    IndexHolds(moves[..n]);
    assert Sound(root, r);
    MovesOfIsSeparated(place, root, r, dirs);
    forall j | 0 <= j < n ensures moves[..n][j].from != place.Key(r.oldPath, dirs) {
      assert !CleanBelow(place.Normalize(root), moves[j].from);
    }
  }

  /** An entry that was not reached agrees exactly if it is still where it was. */
  lemma UnreachedAgrees(
    place: Place, root: string, renames: seq<Rename>, before: string, now: string, dirs: bool, n: nat)
    requires Orderly(place, root, renames) && n <= |place.Moves(renames, dirs)|
    requires Proper(root, before) && Proper(root, now)
    requires forall r | r in renames :: r.oldPath != before
    ensures Found(Index(place.Moves(renames, dirs)[..n]), place.Key(before, dirs)) == place.Key(now, dirs)
            <==> before == now
  {
    var moves := place.Moves(renames, dirs);
    MovesAreDistinct(place, root, renames, dirs);
    IndexHolds(moves[..n]);
    forall j | 0 <= j < n ensures moves[..n][j].from != place.Key(before, dirs) {
      assert moves[j] in moves;
      NotItsMove(place, root, renames, before, dirs, moves[j].from);
    }
    if place.Key(before, dirs) == place.Key(now, dirs) {
      KeyInjective(place, root, before, now, dirs);
    }
  }

  lemma KeysDiffer(place: Place, root: string, r: Rename, path: string, dirs: bool)
    requires IsPrefix(place.sipPath, root) && Sound(root, r) && Proper(root, path) && r.oldPath != path
    ensures place.Key(r.oldPath, dirs) != place.Key(path, dirs)
  {
    if place.Key(r.oldPath, dirs) == place.Key(path, dirs) {
      KeyInjective(place, root, r.oldPath, path, dirs);
    }
  }

  lemma NotItsMove(place: Place, root: string, renames: seq<Rename>, before: string, dirs: bool, from: string)
    requires Orderly(place, root, renames) && Proper(root, before)
    requires (forall r | r in renames :: r.oldPath != before) && KeyOfOne(place, renames, dirs, from)
    ensures from != place.Key(before, dirs)
  {
    var i :| 0 <= i < |renames| && from == place.Key(renames[i].oldPath, dirs);
    KeysDiffer(place, root, renames[i], before, dirs);
  }

  /** The walk of a tree before and after, as the database side sees it: the entries yielded, and the others. */
  ghost predicate Splits(
    place: Place, root: string, renames: seq<Rename>, before: seq<(string, bool)>, now: seq<(string, bool)>)
  {
    && Orderly(place, root, renames) && |renames| <= |before| == |now|
    && (forall i | 0 <= i < |before| :: Proper(root, before[i].0) && Proper(root, now[i].0))
    && (forall i | 0 <= i < |renames| ::
          before[i] == (renames[i].oldPath, renames[i].isDir) && now[i] == (renames[i].newPath, renames[i].isDir))
    && (forall i, r | |renames| <= i < |before| && r in renames :: r.oldPath != before[i].0)
  }

  lemma PathsSplit(renames: seq<Rename>, before: seq<(string, bool)>, now: seq<(string, bool)>)
    requires OldPaths(renames) <= before && NewPaths(renames) <= now && PathsDistinct(before)
    ensures forall i | 0 <= i < |renames| ::
              before[i] == (renames[i].oldPath, renames[i].isDir) && now[i] == (renames[i].newPath, renames[i].isDir)
    ensures forall i, r | |renames| <= i < |before| && r in renames :: r.oldPath != before[i].0
  {
    var k := |renames|;
    assert OldPaths(renames) == before[..k] && NewPaths(renames) == now[..k];
    forall i | 0 <= i < k
      ensures before[i] == (renames[i].oldPath, renames[i].isDir) && now[i] == (renames[i].newPath, renames[i].isDir)
    {
      assert before[i] == before[..k][i] == OldPaths(renames)[i] && now[i] == now[..k][i] == NewPaths(renames)[i];
    }
  }

  lemma WalkSplits(u: Unidecode, max: nat, dir: seq<Node>, place: Place, root: string)
    requires KeepsAscii(u) && ValidDir(dir) && IsPrefix(place.sipPath, root)
    ensures var o := ChangeEntries(u, max, Names(dir), dir, root, root);
            Splits(place, root, o.renames, Listing(dir, root), Listing(o.dir, root))
  {
    var o := ChangeEntries(u, max, Names(dir), dir, root, root);
    ChangeTreeGuarantees(u, max, dir, root);
    RenamesAreOrderly(u, max, dir, place, root);
    SameShapeSize(dir, o.dir, root, root);
    ListingProper(dir, root, root);
    ListingProper(o.dir, root, root);
    ListingDistinct(dir, root);
    PathsSplit(o.renames, Listing(dir, root), Listing(o.dir, root));
  }

  lemma EntryAgrees(
    place: Place, root: string, renames: seq<Rename>, before: seq<(string, bool)>, now: seq<(string, bool)>,
    dirs: bool, n: nat, i: nat)
    requires Splits(place, root, renames, before, now) && n <= |place.Moves(renames, dirs)|
    requires i < |before| && before[i].1 == dirs
    ensures Found(Index(place.Moves(renames, dirs)[..n]), place.Key(before[i].0, dirs)) == place.Key(now[i].0, dirs)
            <==> if i < |renames| then !renames[i].wasChanged || |place.Moves(renames[..i], dirs)| < n
                 else before[i].0 == now[i].0
  {
    if i < |renames| {
      if renames[i].wasChanged {
        ChangedAgrees(place, root, renames, i, n);
      } else {
        UnchangedAgrees(place, root, renames, i, n);
      }
    } else {
      UnreachedAgrees(place, root, renames, before[i].0, now[i].0, dirs, n);
    }
  }

  /** With the first n moves of one kind written, its records agree with the disk exactly if these are all its moves
      and every entry of the kind that was not reached is still where it was. */
  lemma {:induction false} KindAgrees(
    place: Place, root: string, renames: seq<Rename>, before: seq<(string, bool)>, now: seq<(string, bool)>,
    dirs: bool, n: nat)
    requires Splits(place, root, renames, before, now) && n <= |place.Moves(renames, dirs)|
    ensures Agrees(place, before, now, dirs, Index(place.Moves(renames, dirs)[..n]))
            <==> && n == |place.Moves(renames, dirs)|
                 && forall i | |renames| <= i < |before| && before[i].1 == dirs :: before[i].0 == now[i].0
  {
    var moves := place.Moves(renames, dirs);
    forall i | 0 <= i < |before| && before[i].1 == dirs
      ensures Found(Index(moves[..n]), place.Key(before[i].0, dirs)) == place.Key(now[i].0, dirs)
              <==> if i < |renames| then !renames[i].wasChanged || |place.Moves(renames[..i], dirs)| < n
                   else before[i].0 == now[i].0
    {
      EntryAgrees(place, root, renames, before, now, dirs, n, i);
    }
    forall i | 0 <= i < |renames| && renames[i].wasChanged && renames[i].isDir == dirs
      ensures |place.Moves(renames[..i], dirs)| < |moves|
    {
      MoveAt(place, renames, i, dirs);
    }
    if n < |moves| {
      var i := MoveOrigin(place, renames, dirs, n);
      assert before[i].1 == dirs;
    }
  }

  /** The condition under which an exception leaves no change pending. */
  predicate NothingPending(n: nat, size: nat) {
    size == 0 || n % size == 0
  }

  lemma {:induction false} PendingExactly(n: nat, size: nat)
    ensures Written(n, size) == n <==> NothingPending(n, size)
  {
    if size > 0 {
      WholeBatches(n, size);
    }
  }

  lemma UnreachedStay(before: seq<(string, bool)>, now: seq<(string, bool)>, k: nat, root: string)
    requires Interrupted(before, now, k, root)
    ensures CleanBelow(root, DirOf(before[k].0)) <==> forall i | k <= i < |before| :: before[i].0 == now[i].0
  {
    if before[k].0 == now[k].0 {
      forall i | k <= i < |before| ensures before[i] == now[i] {
        assert before[i] == before[k..][i - k] && now[i] == now[k..][i - k];
      }
    }
  }

  /** After an exception the records still agree with the disk exactly if both last batches were just full and the
      directory in which the walk stopped had a clean path. */
  lemma RecordsAgreeExactly(u: Unidecode, max: nat, dir: seq<Node>, place: Place, root: string, size: nat)
    requires KeepsAscii(u) && ValidDir(dir) && IsPrefix(place.sipPath, root)
    requires ChangeEntries(u, max, Names(dir), dir, root, root).error.Some?
    ensures var o := ChangeEntries(u, max, Names(dir), dir, root, root);
            var (before, now) := (Listing(dir, root), Listing(o.dir, root));
            var (files, subdirs) := (place.Moves(o.renames, false), place.Moves(o.renames, true));
            && |o.renames| < |before| == |now|
            && (&& Agrees(place, before, now, false, Index(files[..Written(|files|, size)]))
                && Agrees(place, before, now, true, Index(subdirs[..Written(|subdirs|, size)]))
                <==> && NothingPending(|files|, size) && NothingPending(|subdirs|, size)
                     && CleanBelow(root, DirOf(before[|o.renames|].0)))
  {
    var o := ChangeEntries(u, max, Names(dir), dir, root, root);
    var before, now := Listing(dir, root), Listing(o.dir, root);
    ChangeTreeGuarantees(u, max, dir, root);
    WalkSplits(u, max, dir, place, root);
    UnreachedStay(before, now, |o.renames|, root);
    BothKindsAgree(place, root, o.renames, before, now, size);
  }

  lemma BothKindsAgree(
    place: Place, root: string, renames: seq<Rename>, before: seq<(string, bool)>, now: seq<(string, bool)>, size: nat)
    requires Splits(place, root, renames, before, now)
    ensures var (files, subdirs) := (place.Moves(renames, false), place.Moves(renames, true));
            && Agrees(place, before, now, false, Index(files[..Written(|files|, size)]))
            && Agrees(place, before, now, true, Index(subdirs[..Written(|subdirs|, size)]))
            <==> && NothingPending(|files|, size) && NothingPending(|subdirs|, size)
                 && forall i | |renames| <= i < |before| :: before[i].0 == now[i].0
  {
    var files, subdirs := place.Moves(renames, false), place.Moves(renames, true);
    PendingExactly(|files|, size);
    PendingExactly(|subdirs|, size);
    KindAgrees(place, root, renames, before, now, false, Written(|files|, size));
    KindAgrees(place, root, renames, before, now, true, Written(|subdirs|, size));
  }

  /** Of the two names of a directory the first can be cleaned and the second cannot. */
  predicate SecondStuck(u: Unidecode, max: nat, taken: set<string>, a: string, b: string) {
    && ValidName(a) && ValidName(b) && a != b && !Clean(a) && taken == {a, b}
    && NewName(u, taken, a, max).Success?
    && NewName(u, taken - {a} + {NewName(u, taken, a, max).value}, b, max).Failure?
  }

  lemma TwoNames(dir: seq<Node>)
    requires |dir| == 2
    ensures dir[1..] == [dir[1]] && Names(dir) == {dir[0].name, dir[1].name}
    ensures ValidDir(dir) <==> ValidNode(dir[0]) && ValidNode(dir[1]) && dir[0].name != dir[1].name
  {
    var rest := dir[1..];
    assert rest == [dir[1]] && rest[1..] == [];
    assert Names(rest) == {dir[1].name} + Names(rest[1..]) == {dir[1].name};
    assert ValidDir(rest) <==> ValidNode(dir[1]);
  }

  lemma RenamedFile(u: Unidecode, max: nat, names: set<string>, node: Node, root: string)
    requires KeepsAscii(u) && node.File? && ValidName(node.name) && !Clean(node.name)
    requires NewName(u, names, node.name, max).Success?
    ensures var first := ChangeOne(u, max, names, node, root, root);
            && first.error.None? && first.node.name == NewName(u, names, node.name, max).value
            && |first.renames| == 1 && first.renames[0].wasChanged && !first.renames[0].isDir
  {
    var name := NewName(u, names, node.name, max).value;
    NewNameIsFree(u, names, node.name, max);
    CleanHasNoSlash(name);
    SplitBelow(root, name, root, node.name);
  }

  lemma StopsAtOne(u: Unidecode, max: nat, names: set<string>, dir: seq<Node>, root: string)
    requires |dir| == 1 && ValidDir(dir) && ValidNode(dir[0]) && NewName(u, names, dir[0].name, max).Failure?
    ensures var o := ChangeEntries(u, max, names, dir, root, root);
            o.error.Some? && o.renames == []
  {
  }

  lemma WalkTwo(u: Unidecode, max: nat, names: set<string>, dir: seq<Node>, root: string)
    requires dir != [] && ValidDir(dir)
    ensures var first := ChangeOne(u, max, names, dir[0], root, root);
            first.error.None? ==>
              var o := ChangeEntries(u, max, names, dir, root, root);
              var rest := ChangeEntries(u, max, names - {dir[0].name} + {first.node.name}, dir[1..], root, root);
              o.error == rest.error && o.renames == first.renames + rest.renames
  {
  }

  lemma StopsAtSecond(u: Unidecode, max: nat, dir: seq<Node>, root: string)
    requires KeepsAscii(u) && |dir| == 2 && dir[0].File? && dir[1].File?
    requires SecondStuck(u, max, Names(dir), dir[0].name, dir[1].name)
    ensures ValidDir(dir)
    ensures var o := ChangeEntries(u, max, Names(dir), dir, root, root);
            o.error.Some? && |o.renames| == 1 && o.renames[0].wasChanged && !o.renames[0].isDir
  {
    TwoNames(dir);
    RenamedFile(u, max, Names(dir), dir[0], root);
    WalkTwo(u, max, Names(dir), dir, root);
    var first := ChangeOne(u, max, Names(dir), dir[0], root, root);
    StopsAtOne(u, max, Names(dir) - {dir[0].name} + {first.node.name}, dir[1..], root);
  }

  /** And this fails: then, if the batch is not full, the record of the first is left behind. */
  lemma RecordsLeftBehind(u: Unidecode, max: nat, dir: seq<Node>, place: Place, root: string, size: nat)
    requires KeepsAscii(u) && IsPrefix(place.sipPath, root) && size > 1
    requires |dir| == 2 && dir[0].File? && dir[1].File?
    requires SecondStuck(u, max, Names(dir), dir[0].name, dir[1].name)
    ensures ValidDir(dir)
    ensures var o := ChangeEntries(u, max, Names(dir), dir, root, root);
            && o.error.Some? && |Listing(dir, root)| == |Listing(o.dir, root)|
            && var files := place.Moves(o.renames, false);
               var index := Index(files[..Written(|files|, size)]);
               !Agrees(place, Listing(dir, root), Listing(o.dir, root), false, index)
  {
    StopsAtSecond(u, max, dir, root);
    WalkSplits(u, max, dir, place, root);
    var o := ChangeEntries(u, max, Names(dir), dir, root, root);
    LeftBehind(place, root, o.renames, Listing(dir, root), Listing(o.dir, root), size);
  }

  lemma LeftBehind(
    place: Place, root: string, renames: seq<Rename>, before: seq<(string, bool)>, now: seq<(string, bool)>, size: nat)
    requires Splits(place, root, renames, before, now) && size > 1
    requires |renames| == 1 && renames[0].wasChanged && !renames[0].isDir
    ensures var files := place.Moves(renames, false);
            !Agrees(place, before, now, false, Index(files[..Written(|files|, size)]))
  {
    assert renames[..0] == [];
    assert |place.Moves(renames, false)| == 1;
    KindAgrees(place, root, renames, before, now, false, Written(1, size));
  }

  lemma FirstName(u: Unidecode)
    requires KeepsAscii(u)
    ensures CleanedName(u, " ") == "_" && SplitExt("_") == Split("_", "")
  {
    assert Ascii(" ");
    assert Substitute(" ") == ['_'] + Substitute("") == "_";
  }

  lemma SecondSplit()
    ensures SplitExt("_.b") == Split("_", ".b")
  {
    var name := "_.b";
    assert name[..2] == "_." && RFind("_.", '.') == 1;
    assert RFind(name, '.') == 1;
    assert name[0] != '.' && name[..1] == "_" && name[1..] == ".b";
  }

  lemma SecondName(u: Unidecode)
    requires KeepsAscii(u)
    ensures CleanedName(u, " .b") == "_.b" && SplitExt("_.b") == Split("_", ".b")
  {
    assert Ascii(" .b");
    assert Clean(".b") && " .b"[1..] == ".b";
    assert Substitute(" .b") == ['_'] + Substitute(".b") == "_.b";
    SecondSplit();
  }

  lemma NamesValid()
    ensures ValidName(" ") && ValidName(" .b") && !Clean(" ")
  {
    assert !Allowed(" "[0]);
  }

  lemma FreeAtOnce(taken: set<string>, name: Split, max: nat)
    requires !Exists(taken, Plain(name, max))
    ensures FirstFree(taken, Attempts(name, max)) == 0
  {
    FirstFreeIs(taken, Attempts(name, max), 0);
  }

  /** There are such names, with a limit of one character to keep them short. */
  lemma SuchNames(u: Unidecode, taken: set<string>)
    requires KeepsAscii(u) && taken == {" ", " .b"}
    ensures SecondStuck(u, 1, taken, " ", " .b")
  {
    NamesValid();
    FirstName(u);
    var name := Split("_", "");
    assert Plain(name, 1) == "_" && |" "| != |" .b"| && "_" !in taken;
    FreeAtOnce(taken, name, 1);
    NewNameSucceeds(u, taken, " ", 1);
    StuckWith(u, taken - {" "} + {NewName(u, taken, " ", 1).value});
  }

  lemma StuckWith(u: Unidecode, taken: set<string>)
    requires KeepsAscii(u)
    ensures NewName(u, taken, " .b", 1).Failure?
  {
    SecondName(u);
    NewNameSucceeds(u, taken, " .b", 1);
  }
}
