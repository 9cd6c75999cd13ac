/** What change_tree guarantees for a whole directory tree, whatever the entries are called. */
module TreeCleanup {
  import opened Text
  import opened DirTree
  import opened ChangeNames

  function OldPaths(renames: seq<Rename>): seq<(string, bool)> {
    seq(|renames|, i requires 0 <= i < |renames| => (renames[i].oldPath, renames[i].isDir))
  }

  function NewPaths(renames: seq<Rename>): seq<(string, bool)> {
    seq(|renames|, i requires 0 <= i < |renames| => (renames[i].newPath, renames[i].isDir))
  }

  // ---------------------------------------------------------------- the tree that results

  /** The entries reported so far are the first ones of the walk, under their old and their new paths; the new
      tree has the old one's shape and contents, and distinct names. */
  ghost predicate CleanedUp(todo: seq<Node>, names: set<string>, o: Outcome, start: string, oldStart: string) {
    && SameShape(todo, o.dir)
    && OldPaths(o.renames) <= Listing(todo, oldStart)
    && NewPaths(o.renames) <= Listing(o.dir, start)
    && ValidDir(o.dir)
    && Names(o.dir) !! names - Names(todo)
    && (o.error.None? ==> CleanedUpAll(todo, o, start, oldStart))
  }

  /** Without an exception every entry is reported once and every name is clean. */
  ghost predicate CleanedUpAll(todo: seq<Node>, o: Outcome, start: string, oldStart: string) {
    && OldPaths(o.renames) == Listing(todo, oldStart)
    && NewPaths(o.renames) == Listing(o.dir, start)
    && AllClean(o.dir)
  }

  lemma PathsConcat(a: seq<Rename>, b: seq<Rename>)
    ensures OldPaths(a + b) == OldPaths(a) + OldPaths(b)
    ensures NewPaths(a + b) == NewPaths(a) + NewPaths(b)
  {
  }

  lemma PrefixThen<T>(a: seq<T>, b: seq<T>, c: seq<T>)
    ensures b <= c ==> a + b <= a + c
    ensures a <= b ==> a <= b + c
  {
  }

  lemma {:induction false} SameShapeItself(dir: seq<Node>)
    ensures SameShape(dir, dir)
    decreases dir, 0
  {
    if dir != [] {
      SameKindItself(dir[0]);
      SameShapeItself(dir[1..]);
    }
  }

  lemma {:induction false} SameKindItself(node: Node)
    ensures SameKind(node, node)
    decreases node, 1
  {
    if node.Dir? {
      SameShapeItself(node.entries);
    }
  }

  /** The same for one entry. */
  ghost predicate CleanedUpOne(node: Node, names: set<string>, r: Round, start: string, oldStart: string) {
    && (r.node.name == node.name || r.node.name !in names)
    && ValidNode(r.node) && SameKind(node, r.node)
    && OldPaths(r.renames) <= NodeListing(node, oldStart)
    && NewPaths(r.renames) <= NodeListing(r.node, start)
    && (r.error.None? ==>
          && CleanNode(r.node)
          && OldPaths(r.renames) == NodeListing(node, oldStart)
          && NewPaths(r.renames) == NodeListing(r.node, start))
  }

  lemma {:induction false} CleanUp(
    u: Unidecode, max: nat, names: set<string>, todo: seq<Node>, start: string, oldStart: string)
    requires KeepsAscii(u) && ValidDir(todo) && Names(todo) <= names
    ensures CleanedUp(todo, names, ChangeEntries(u, max, names, todo, start, oldStart), start, oldStart)
    decreases todo, 0
  {
    if todo != [] {
      var first := ChangeOne(u, max, names, todo[0], start, oldStart);
      var names' := names - {todo[0].name} + {first.node.name};
      CleanUpOne(u, max, names, todo[0], start, oldStart);
      if first.error.Some? {
        StoppedHere(todo, names, first, start, oldStart);
      } else {
        CleanUp(u, max, names', todo[1..], start, oldStart);
        var rest := ChangeEntries(u, max, names', todo[1..], start, oldStart);
        WentOn(todo, names, first, rest, start, oldStart);
      }
    }
  }

  lemma StoppedHere(todo: seq<Node>, names: set<string>, first: Round, start: string, oldStart: string)
    requires todo != [] && ValidDir(todo) && Names(todo) <= names && first.error.Some?
    requires CleanedUpOne(todo[0], names, first, start, oldStart)
    ensures CleanedUp(
              todo, names, Outcome([first.node] + todo[1..], first.renames, first.error), start, oldStart)
  {
    var dir := [first.node] + todo[1..];
    assert dir[1..] == todo[1..];
    SameShapeItself(todo[1..]);
    PrefixThen(OldPaths(first.renames), NodeListing(todo[0], oldStart), Listing(todo[1..], oldStart));
    PrefixThen(NewPaths(first.renames), NodeListing(first.node, start), Listing(todo[1..], start));
  }

  lemma WentOn(todo: seq<Node>, names: set<string>, first: Round, rest: Outcome, start: string, oldStart: string)
    requires todo != [] && ValidDir(todo) && Names(todo) <= names && first.error.None?
    requires CleanedUpOne(todo[0], names, first, start, oldStart)
    requires CleanedUp(todo[1..], names - {todo[0].name} + {first.node.name}, rest, start, oldStart)
    ensures CleanedUp(
              todo, names, Outcome([first.node] + rest.dir, first.renames + rest.renames, rest.error), start, oldStart)
  {
    assert ([first.node] + rest.dir)[1..] == rest.dir;
    PathsConcat(first.renames, rest.renames);
    PrefixThen(OldPaths(first.renames), OldPaths(rest.renames), Listing(todo[1..], oldStart));
    PrefixThen(NewPaths(first.renames), NewPaths(rest.renames), Listing(rest.dir, start));
  }

  lemma {:induction false} CleanUpOne(
    u: Unidecode, max: nat, names: set<string>, node: Node, start: string, oldStart: string)
    requires KeepsAscii(u) && ValidNode(node) && node.name in names
    ensures CleanedUpOne(node, names, ChangeOne(u, max, names, node, start, oldStart), start, oldStart)
    decreases node, 1
  {
    if NewName(u, names, node.name, max).Failure? {
      SameKindItself(node);
    } else {
      var name := NewName(u, names, node.name, max).value;
      NewNameIsFree(u, names, node.name, max);
      CleanHasNoSlash(name);
      var newPath, oldPath := Below(start, name), Below(oldStart, node.name);
      var changed := Rename(oldPath, newPath, node.Dir?, newPath != oldPath);
      if node.Dir? {
        CleanUp(u, max, Names(node.entries), node.entries, newPath, oldPath);
        var inner := ChangeEntries(u, max, Names(node.entries), node.entries, newPath, oldPath);
        DirRound(node, changed, inner, name, start, oldStart);
      } else {
        PathsConcat([changed], []);
      }
    }
  }

  lemma DirRound(node: Node, changed: Rename, inner: Outcome, name: string, start: string, oldStart: string)
    requires node.Dir?
    requires CleanedUp(node.entries, Names(node.entries), inner, Below(start, name), Below(oldStart, node.name))
    requires ValidName(name) && Clean(name)
    requires changed.oldPath == Below(oldStart, node.name) && changed.newPath == Below(start, name) && changed.isDir
    ensures var moved := Moved(node, name, inner.dir);
            && ValidNode(moved) && SameKind(node, moved)
            && OldPaths([changed] + inner.renames) <= NodeListing(node, oldStart)
            && NewPaths([changed] + inner.renames) <= NodeListing(moved, start)
            && (inner.error.None? ==>
                  && CleanNode(moved)
                  && OldPaths([changed] + inner.renames) == NodeListing(node, oldStart)
                  && NewPaths([changed] + inner.renames) == NodeListing(moved, start))
  {
    PathsConcat([changed], inner.renames);
    PrefixThen(OldPaths([changed]), OldPaths(inner.renames), Listing(node.entries, Below(oldStart, node.name)));
    PrefixThen(NewPaths([changed]), NewPaths(inner.renames), Listing(inner.dir, Below(start, name)));
  }

  lemma CleanHasNoSlash(s: string)
    requires Clean(s)
    ensures '/' !in s
  {
    forall i | 0 <= i < |s| ensures s[i] != '/' {
      assert Allowed(s[i]);
    }
  }

  // ---------------------------------------------------------------- which entries change

  /** Below the root, the path holds nothing but allowed characters and separators. */
  predicate CleanBelow(root: string, path: string) {
    IsPrefix(root, path) && forall i | |root| <= i < |path| :: Allowed(path[i]) || path[i] == '/'
  }

  lemma CleanBelowStep(root: string, at: string, name: string)
    requires IsPrefix(root, at) && '/' !in name
    ensures IsPrefix(root, Below(at, name))
    ensures CleanBelow(root, Below(at, name)) <==> CleanBelow(root, at) && Clean(name)
  {
    var path := Below(at, name);
    assert forall i | 0 <= i < |at| :: path[i] == at[i];
    assert path[|at|] == '/';
    assert forall i | 0 <= i < |name| :: path[|at| + 1 + i] == name[i];
    if CleanBelow(root, path) {
      forall i | |root| <= i < |at| ensures Allowed(at[i]) || at[i] == '/' {
        assert path[i] == at[i];
      }
      forall i | 0 <= i < |name| ensures Allowed(name[i]) {
        assert name[i] in name;
        assert path[|at| + 1 + i] == name[i];
      }
    }
    if CleanBelow(root, at) && Clean(name) {
      forall i | |root| <= i < |path| ensures Allowed(path[i]) || path[i] == '/' {
        if i < |at| {
        } else if i > |at| {
          assert path[i] == name[i - |at| - 1];
        }
      }
    }
  }

  /** One yielded tuple, seen from the start directory: the new path is clean below it, and the entry
      counts as changed exactly when the old path is not. */
  predicate Judged(root: string, r: Rename) {
    && IsPrefix(root, r.oldPath) && CleanBelow(root, r.newPath)
    && r.wasChanged == (r.newPath != r.oldPath)
    && (r.wasChanged <==> !CleanBelow(root, r.oldPath))
  }

  /** A directory under its present and its former path, as the walk has them. */
  predicate Paired(root: string, start: string, oldStart: string) {
    CleanBelow(root, start) && IsPrefix(root, oldStart) && (start == oldStart <==> CleanBelow(root, oldStart))
  }

  lemma SplitBelow(a: string, x: string, b: string, y: string)
    requires '/' !in x && '/' !in y
    ensures Below(a, x) == Below(b, y) <==> a == b && x == y
  {
    var p, q := Below(a, x), Below(b, y);
    assert forall i | |a| < i < |p| :: p[i] == x[i - |a| - 1] && x[i - |a| - 1] in x;
    assert forall i | |b| < i < |q| :: q[i] == y[i - |b| - 1] && y[i - |b| - 1] in y;
    if p == q {
      assert p[|a|] == '/' && q[|b|] == '/';
      assert |a| == |b|;
      assert a == p[..|a|] && b == q[..|b|] && x == p[|a| + 1..] && y == q[|b| + 1..];
    }
  }

  lemma PairedStep(
    u: Unidecode, max: nat, names: set<string>, node: Node, root: string, start: string, oldStart: string)
    requires KeepsAscii(u) && ValidNode(node) && Paired(root, start, oldStart)
    requires NewName(u, names, node.name, max).Success?
    ensures var newPath, oldPath := Below(start, NewName(u, names, node.name, max).value), Below(oldStart, node.name);
            && Paired(root, newPath, oldPath)
            && Judged(root, Rename(oldPath, newPath, node.Dir?, newPath != oldPath))
            && (newPath == oldPath ==> start == oldStart)
  {
    var name := NewName(u, names, node.name, max).value;
    NewNameIsFree(u, names, node.name, max);
    CleanHasNoSlash(name);
    CleanBelowStep(root, start, name);
    CleanBelowStep(root, oldStart, node.name);
    SplitBelow(start, name, oldStart, node.name);
  }

  lemma {:induction false} Judge(
    u: Unidecode, max: nat, names: set<string>, todo: seq<Node>, root: string, start: string, oldStart: string)
    requires KeepsAscii(u) && ValidDir(todo) && Paired(root, start, oldStart)
    ensures forall r | r in ChangeEntries(u, max, names, todo, start, oldStart).renames :: Judged(root, r)
    decreases todo, 0
  {
    if todo != [] {
      JudgeOne(u, max, names, todo[0], root, start, oldStart);
      var first := ChangeOne(u, max, names, todo[0], start, oldStart);
      if first.error.None? {
        Judge(u, max, names - {todo[0].name} + {first.node.name}, todo[1..], root, start, oldStart);
      }
    }
  }

  lemma {:induction false} JudgeOne(
    u: Unidecode, max: nat, names: set<string>, node: Node, root: string, start: string, oldStart: string)
    requires KeepsAscii(u) && ValidNode(node) && Paired(root, start, oldStart)
    ensures forall r | r in ChangeOne(u, max, names, node, start, oldStart).renames :: Judged(root, r)
    decreases node, 1
  {
    if NewName(u, names, node.name, max).Success? {
      var newPath, oldPath := Below(start, NewName(u, names, node.name, max).value), Below(oldStart, node.name);
      PairedStep(u, max, names, node, root, start, oldStart);
      if node.Dir? {
        Judge(u, max, Names(node.entries), node.entries, root, newPath, oldPath);
      }
    }
  }

  /** A clean tree stays as it is, so cleaning up twice changes nothing the second time. */
  lemma {:induction false} CleanTreeUnchanged(
    u: Unidecode, max: nat, names: set<string>, todo: seq<Node>, start: string)
    requires KeepsAscii(u) && ValidDir(todo) && AllClean(todo)
    ensures var o := ChangeEntries(u, max, names, todo, start, start);
            o.error.None? && o.dir == todo && forall r | r in o.renames :: !r.wasChanged
    decreases todo, 0
  {
    if todo != [] {
      CleanNodeUnchanged(u, max, names, todo[0], start);
      CleanTreeUnchanged(u, max, names - {todo[0].name} + {todo[0].name}, todo[1..], start);
    }
  }

  lemma {:induction false} CleanNodeUnchanged(u: Unidecode, max: nat, names: set<string>, node: Node, start: string)
    requires KeepsAscii(u) && ValidNode(node) && CleanNode(node)
    ensures var first := ChangeOne(u, max, names, node, start, start);
            first.error.None? && first.node == node && forall r | r in first.renames :: !r.wasChanged
    decreases node, 1
  {
    FixedPoints(u, node.name);
    if node.Dir? {
      CleanTreeUnchanged(u, max, Names(node.entries), node.entries, Below(start, node.name));
    }
  }

  // ---------------------------------------------------------------- a walk that raises

  /** os.path.dirname on the paths of a walk. */
  function DirOf(path: string): string {
    if '/' in path then path[..Max(0, RFind(path, '/'))] else ""
  }

  lemma DirOfBelow(at: string, name: string)
    requires '/' !in name
    ensures DirOf(Below(at, name)) == at
  {
    var path := Below(at, name);
    assert path[|at|] == '/';
    assert forall i | |at| < i < |path| :: path[i] == name[i - |at| - 1] && name[i - |at| - 1] in name;
    assert path[RFind(path, '/')] == '/';
  }

  /** Where a walk stopped: at the entry after those yielded. That entry, and all later ones, are still where they
      were exactly if the path of its directory was clean; otherwise they moved with the directory. */
  ghost predicate Interrupted(before: seq<(string, bool)>, now: seq<(string, bool)>, k: nat, root: string) {
    && k < |before| == |now|
    && (before[k].0 == now[k].0 <==> CleanBelow(root, DirOf(before[k].0)))
    && (before[k].0 == now[k].0 ==> before[k..] == now[k..])
  }

  lemma InterruptedWithin(
    a: seq<(string, bool)>, before: seq<(string, bool)>, x: seq<(string, bool)>,
    b: seq<(string, bool)>, now: seq<(string, bool)>, y: seq<(string, bool)>, k: nat, root: string)
    requires Interrupted(before, now, k, root) && |a| == |b| && |x| == |y|
    requires before[k].0 == now[k].0 ==> x == y
    ensures Interrupted(a + before + x, b + now + y, |a| + k, root)
  {
    var i, old0, now0 := |a| + k, a + before + x, b + now + y;
    assert old0[i] == before[k] && now0[i] == now[k];
    assert old0[i..] == before[k..] + x && now0[i..] == now[k..] + y;
  }

  lemma {:induction false} SameShapeSize(a: seq<Node>, b: seq<Node>, at: string, at': string)
    requires SameShape(a, b)
    ensures |Listing(a, at)| == |Listing(b, at')|
    decreases a, 0
  {
    if a != [] && b != [] {
      SameKindSize(a[0], b[0], at, at');
      SameShapeSize(a[1..], b[1..], at, at');
    }
  }

  lemma {:induction false} SameKindSize(a: Node, b: Node, at: string, at': string)
    requires SameKind(a, b)
    ensures |NodeListing(a, at)| == |NodeListing(b, at')|
    decreases a, 1
  {
    if a.Dir? {
      SameShapeSize(a.entries, b.entries, Below(at, a.name), Below(at', b.name));
    }
  }

  /** The same inside a directory: an entry is still where it was only if that directory is. */
  ghost predicate InterruptedIn(
    before: seq<(string, bool)>, now: seq<(string, bool)>, k: nat, root: string, start: string, oldStart: string)
  {
    Interrupted(before, now, k, root) && (before[k].0 == now[k].0 ==> start == oldStart)
  }

  lemma InterruptedBetween(
    a: seq<(string, bool)>, before: seq<(string, bool)>, x: seq<(string, bool)>,
    b: seq<(string, bool)>, now: seq<(string, bool)>, y: seq<(string, bool)>,
    k: nat, root: string, start: string, oldStart: string)
    requires InterruptedIn(before, now, k, root, start, oldStart) && |a| == |b| && |x| == |y|
    requires start == oldStart ==> x == y
    ensures InterruptedIn(a + before + x, b + now + y, |a| + k, root, start, oldStart)
  {
    InterruptedWithin(a, before, x, b, now, y, k, root);
    assert (a + before + x)[|a| + k] == before[k] && (b + now + y)[|a| + k] == now[k];
  }

  lemma InterruptedInHead(
    todo: seq<Node>, names: set<string>, first: Round, root: string, start: string, oldStart: string)
    requires todo != [] && CleanedUpOne(todo[0], names, first, start, oldStart)
    requires InterruptedIn(
               NodeListing(todo[0], oldStart), NodeListing(first.node, start), |first.renames|, root, start, oldStart)
    ensures InterruptedIn(
              Listing(todo, oldStart), Listing([first.node] + todo[1..], start), |first.renames|, root, start, oldStart)
  {
    var head, head' := NodeListing(todo[0], oldStart), NodeListing(first.node, start);
    var rest, rest' := Listing(todo[1..], oldStart), Listing(todo[1..], start);
    SameShapeItself(todo[1..]);
    SameShapeSize(todo[1..], todo[1..], oldStart, start);
    InterruptedBetween([], head, rest, [], head', rest', |first.renames|, root, start, oldStart);
    assert [] + head == head && [] + head' == head';
    assert ([first.node] + todo[1..])[1..] == todo[1..];
  }

  lemma InterruptedLater(
    todo: seq<Node>, names: set<string>, first: Round, rest: Outcome, root: string, start: string, oldStart: string)
    requires todo != [] && CleanedUpOne(todo[0], names, first, start, oldStart) && first.error.None?
    requires InterruptedIn(
               Listing(todo[1..], oldStart), Listing(rest.dir, start), |rest.renames|, root, start, oldStart)
    ensures InterruptedIn(
              Listing(todo, oldStart), Listing([first.node] + rest.dir, start), |first.renames + rest.renames|,
              root, start, oldStart)
  {
    var head, head' := NodeListing(todo[0], oldStart), NodeListing(first.node, start);
    var later, later' := Listing(todo[1..], oldStart), Listing(rest.dir, start);
    assert |head| == |OldPaths(first.renames)| == |first.renames| == |NewPaths(first.renames)| == |head'|;
    InterruptedBetween(head, later, [], head', later', [], |rest.renames|, root, start, oldStart);
    assert head + later + [] == head + later && head' + later' + [] == head' + later';
    assert ([first.node] + rest.dir)[1..] == rest.dir;
  }

  lemma {:induction false} WalkInterrupted(
    u: Unidecode, max: nat, names: set<string>, todo: seq<Node>, root: string, start: string, oldStart: string)
    requires KeepsAscii(u) && ValidDir(todo) && Names(todo) <= names && Paired(root, start, oldStart)
    requires ChangeEntries(u, max, names, todo, start, oldStart).error.Some?
    ensures var o := ChangeEntries(u, max, names, todo, start, oldStart);
            InterruptedIn(Listing(todo, oldStart), Listing(o.dir, start), |o.renames|, root, start, oldStart)
    decreases todo, 0
  {
    var first := ChangeOne(u, max, names, todo[0], start, oldStart);
    CleanUpOne(u, max, names, todo[0], start, oldStart);
    if first.error.Some? {
      EntryInterrupted(u, max, names, todo[0], root, start, oldStart);
      InterruptedInHead(todo, names, first, root, start, oldStart);
    } else {
      var names' := names - {todo[0].name} + {first.node.name};
      WalkInterrupted(u, max, names', todo[1..], root, start, oldStart);
      InterruptedLater(
        todo, names, first, ChangeEntries(u, max, names', todo[1..], start, oldStart), root, start, oldStart);
    }
  }

  lemma {:induction false} EntryInterrupted(
    u: Unidecode, max: nat, names: set<string>, node: Node, root: string, start: string, oldStart: string)
    requires KeepsAscii(u) && ValidNode(node) && node.name in names && Paired(root, start, oldStart)
    requires ChangeOne(u, max, names, node, start, oldStart).error.Some?
    ensures var r := ChangeOne(u, max, names, node, start, oldStart);
            InterruptedIn(
              NodeListing(node, oldStart), NodeListing(r.node, start), |r.renames|, root, start, oldStart)
    decreases node, 1
  {
    if NewName(u, names, node.name, max).Failure? {
      NotRenamed(node, root, start, oldStart);
    } else {
      var name := NewName(u, names, node.name, max).value;
      PairedStep(u, max, names, node, root, start, oldStart);
      WalkInterrupted(
        u, max, Names(node.entries), node.entries, root, Below(start, name), Below(oldStart, node.name));
      var inner := ChangeEntries(
        u, max, Names(node.entries), node.entries, Below(start, name), Below(oldStart, node.name));
      InterruptedInside(node, name, inner, root, start, oldStart);
    }
  }

  lemma NotRenamed(node: Node, root: string, start: string, oldStart: string)
    requires ValidNode(node) && Paired(root, start, oldStart)
    ensures InterruptedIn(NodeListing(node, oldStart), NodeListing(node, start), 0, root, start, oldStart)
  {
    DirOfBelow(oldStart, node.name);
    SplitBelow(start, node.name, oldStart, node.name);
    SameKindItself(node);
    SameKindSize(node, node, oldStart, start);
  }

  lemma InterruptedInside(node: Node, name: string, inner: Outcome, root: string, start: string, oldStart: string)
    requires node.Dir?
    requires InterruptedIn(
               Listing(node.entries, Below(oldStart, node.name)), Listing(inner.dir, Below(start, name)),
               |inner.renames|, root, Below(start, name), Below(oldStart, node.name))
    requires Below(start, name) == Below(oldStart, node.name) ==> start == oldStart
    ensures InterruptedIn(
              NodeListing(node, oldStart), NodeListing(Moved(node, name, inner.dir), start), 1 + |inner.renames|,
              root, start, oldStart)
  {
    var newPath, oldPath := Below(start, name), Below(oldStart, node.name);
    var before, now := Listing(node.entries, oldPath), Listing(inner.dir, newPath);
    InterruptedBetween(
      [(oldPath, true)], before, [], [(newPath, true)], now, [], |inner.renames|, root, newPath, oldPath);
    assert [(oldPath, true)] + before + [] == NodeListing(node, oldStart);
    assert [(newPath, true)] + now + [] == NodeListing(Moved(node, name, inner.dir), start);
  }

  // ---------------------------------------------------------------- which name each entry gets

  lemma FirstChosen(
    u: Unidecode, max: nat, names: set<string>, others: set<string>, todo: seq<Node>, start: string, oldStart: string)
    requires KeepsAscii(u) && ValidDir(todo) && todo != [] && names == others + Names(todo) && others !! Names(todo)
    requires ChangeOne(u, max, names, todo[0], start, oldStart).error.None?
    ensures var node := ChangeOne(u, max, names, todo[0], start, oldStart).node;
            && names - {todo[0].name} + {node.name} == others + {node.name} + Names(todo[1..])
            && others + {node.name} !! Names(todo[1..])
  {
    CleanUpOne(u, max, names, todo[0], start, oldStart);
  }

  /** A name is chosen against the directory as it stands then, that is, the entries before under their new names and
      the others under their old ones; a directory's own entries are changed below the new path. */
  predicate ChosenAt(
    u: Unidecode, max: nat, others: set<string>, todo: seq<Node>, dir: seq<Node>, start: string, oldStart: string,
    i: nat)
  {
    && i < |todo| == |dir| && ValidNode(todo[i]) && todo[i].name != ""
    && NewName(u, others + Names(dir[..i]) + Names(todo[i..]), todo[i].name, max) == Success(dir[i].name)
    && (todo[i].Dir? ==>
          dir[i].Dir?
          && dir[i].entries
             == ChangeEntries(
                  u, max, Names(todo[i].entries), todo[i].entries, Below(start, dir[i].name),
                  Below(oldStart, todo[i].name)).dir)
  }

  lemma {:induction false} NamesChosen(
    u: Unidecode, max: nat, names: set<string>, others: set<string>, todo: seq<Node>, start: string, oldStart: string,
    i: nat)
    requires KeepsAscii(u) && ValidDir(todo) && names == others + Names(todo) && others !! Names(todo) && i < |todo|
    requires ChangeEntries(u, max, names, todo, start, oldStart).error.None?
    ensures ChosenAt(
              u, max, others, todo, ChangeEntries(u, max, names, todo, start, oldStart).dir, start, oldStart, i)
    decreases todo
  {
    var first := ChangeOne(u, max, names, todo[0], start, oldStart);
    FirstChosen(u, max, names, others, todo, start, oldStart);
    var names' := names - {todo[0].name} + {first.node.name};
    var rest := ChangeEntries(u, max, names', todo[1..], start, oldStart);
    if i == 0 {
      CleanUp(u, max, names', todo[1..], start, oldStart);
      SameShapeCount(todo[1..], rest.dir);
      assert ([first.node] + rest.dir)[..0] == [] && todo[0..] == todo && others + {} == others;
    } else {
      NamesChosen(u, max, names', others + {first.node.name}, todo[1..], start, oldStart, i - 1);
      ChosenLater(u, max, others, todo, first.node, rest.dir, start, oldStart, i);
    }
  }

  lemma ChosenLater(
    u: Unidecode, max: nat, others: set<string>, todo: seq<Node>, node: Node, rest: seq<Node>, start: string,
    oldStart: string, i: nat)
    requires 0 < i < |todo| && ChosenAt(u, max, others + {node.name}, todo[1..], rest, start, oldStart, i - 1)
    ensures ChosenAt(u, max, others, todo, [node] + rest, start, oldStart, i)
  {
    assert ([node] + rest)[..i] == [node] + rest[..i - 1] && todo[i..] == todo[1..][i - 1..];
    NamesCons(node, rest[..i - 1]);
    assert others + {node.name} + Names(rest[..i - 1]) == others + Names(([node] + rest)[..i]);
  }

  lemma NamesCons(node: Node, rest: seq<Node>)
    ensures Names([node] + rest) == {node.name} + Names(rest)
  {
    assert ([node] + rest)[1..] == rest;
  }

  lemma {:induction false} SameShapeCount(a: seq<Node>, b: seq<Node>)
    requires SameShape(a, b)
    ensures |a| == |b|
  {
    if a != [] && b != [] {
      SameShapeCount(a[1..], b[1..]);
    }
  }

  // ---------------------------------------------------------------- the generator as a whole

  /** change_tree from a start directory, whether it gets through or raises on the way. */
  lemma ChangeTreeGuarantees(u: Unidecode, max: nat, dir: seq<Node>, start: string)
    requires KeepsAscii(u) && ValidDir(dir)
    ensures var o := ChangeEntries(u, max, Names(dir), dir, start, start);
            && SameShape(dir, o.dir) && ValidDir(o.dir)
            && OldPaths(o.renames) <= Listing(dir, start)
            && NewPaths(o.renames) <= Listing(o.dir, start)
            && PathsDistinct(OldPaths(o.renames)) && PathsDistinct(NewPaths(o.renames))
            && (forall r | r in o.renames :: Judged(start, r))
            && (o.error.Some? ==> Interrupted(Listing(dir, start), Listing(o.dir, start), |o.renames|, start))
            && (o.error.None? ==>
                  && CleanedUpAll(dir, o, start, start)
                  && var again := ChangeEntries(u, max, Names(o.dir), o.dir, start, start);
                     again.error.None? && again.dir == o.dir && forall r | r in again.renames :: !r.wasChanged)
  {
    var o := ChangeEntries(u, max, Names(dir), dir, start, start);
    CleanUp(u, max, Names(dir), dir, start, start);
    ListingDistinct(dir, start);
    ListingDistinct(o.dir, start);
    Judge(u, max, Names(dir), dir, start, start, start);
    if o.error.Some? {
      WalkInterrupted(u, max, Names(dir), dir, start, start, start);
    } else {
      CleanTreeUnchanged(u, max, Names(o.dir), o.dir, start);
    }
  }
}
