/** Directory trees as the worker's scripts see them: a snapshot of the entries, and the paths of a walk. */
module DirTree {
  import opened Text

  datatype Node = File(name: string, content: string) | Dir(name: string, entries: seq<Node>)

  function Names(dir: seq<Node>): set<string> {
    if dir == [] then {} else {dir[0].name} + Names(dir[1..])
  }

  predicate ValidName(name: string) {
    name !in {"", ".", ".."} && '/' !in name
  }

  /** What every directory listing satisfies: proper, distinct entry names, at every level. */
  predicate ValidDir(dir: seq<Node>) {
    dir == [] || (ValidNode(dir[0]) && dir[0].name !in Names(dir[1..]) && ValidDir(dir[1..]))
  }

  predicate ValidNode(node: Node) {
    ValidName(node.name) && (node.Dir? ==> ValidDir(node.entries))
  }

  function Below(dir: string, name: string): string {
    dir + "/" + name
  }

  /** All paths of a tree in the order a walk meets them, each with its kind. */
  function Listing(dir: seq<Node>, at: string): seq<(string, bool)> {
    if dir == [] then [] else NodeListing(dir[0], at) + Listing(dir[1..], at)
  }

  function NodeListing(node: Node, at: string): seq<(string, bool)> {
    [(Below(at, node.name), node.Dir?)] + (if node.Dir? then Listing(node.entries, Below(at, node.name)) else [])
  }

  // ---------------------------------------------------------------- distinct paths

  /** The first component of a relative path. */
  function FirstComponent(path: string): string {
    if path == "" || path[0] == '/' then "" else [path[0]] + FirstComponent(path[1..])
  }

  lemma {:induction false} FirstComponentOf(name: string, rest: string)
    requires '/' !in name && (rest == "" || rest[0] == '/')
    ensures FirstComponent(name + rest) == name
  {
    if name == "" {
      assert name + rest == rest;
    } else {
      assert (name + rest)[1..] == name[1..] + rest;
      FirstComponentOf(name[1..], rest);
    }
  }

  /** path lies below the directory at, in or under its entry called name. */
  predicate Under(at: string, name: string, path: string) {
    IsPrefix(Below(at, ""), path) && FirstComponent(path[|at| + 1..]) == name
  }

  /** path lies below the directory at, in or under one of the named entries. */
  predicate UnderOne(at: string, names: set<string>, path: string) {
    IsPrefix(Below(at, ""), path) && FirstComponent(path[|at| + 1..]) in names
  }

  lemma UnderItself(at: string, name: string, rest: string)
    requires '/' !in name && (rest == "" || rest[0] == '/')
    ensures Under(at, name, Below(at, name) + rest)
  {
    assert (Below(at, name) + rest)[|at| + 1..] == name + rest;
    FirstComponentOf(name, rest);
  }

  lemma {:induction false} ListedUnder(dir: seq<Node>, at: string)
    requires ValidDir(dir)
    ensures forall i | 0 <= i < |Listing(dir, at)| :: UnderOne(at, Names(dir), Listing(dir, at)[i].0)
    decreases dir, 0
  {
    if dir != [] {
      NodeListedUnder(dir[0], at);
      ListedUnder(dir[1..], at);
      assert forall i | 0 <= i < |NodeListing(dir[0], at)| :: UnderOne(at, Names(dir), NodeListing(dir[0], at)[i].0);
      assert forall i | 0 <= i < |Listing(dir[1..], at)| :: UnderOne(at, Names(dir), Listing(dir[1..], at)[i].0);
    }
  }

  lemma {:induction false} NodeListedUnder(node: Node, at: string)
    requires ValidNode(node)
    ensures forall i | 0 <= i < |NodeListing(node, at)| :: Under(at, node.name, NodeListing(node, at)[i].0)
    ensures forall i | 1 <= i < |NodeListing(node, at)| :: |Below(at, node.name)| < |NodeListing(node, at)[i].0|
    decreases node, 1
  {
    var path := Below(at, node.name);
    assert path + "" == path;
    UnderItself(at, node.name, "");
    if node.Dir? {
      ListedUnder(node.entries, path);
      var inner := Listing(node.entries, path);
      forall i | 0 <= i < |inner|
        ensures Under(at, node.name, inner[i].0) && |path| < |inner[i].0|
      {
        assert UnderOne(path, Names(node.entries), inner[i].0);
        var rest := inner[i].0[|path|..];
        assert inner[i].0 == path + rest && rest[0] == inner[i].0[|path|] == Below(path, "")[|path|] == '/';
        UnderItself(at, node.name, rest);
      }
    }
  }

  /** A walk of a directory tree never lists a path twice. */
  lemma {:induction false} ListingDistinct(dir: seq<Node>, at: string)
    requires ValidDir(dir)
    ensures PathsDistinct(Listing(dir, at))
    decreases dir, 0
  {
    if dir != [] {
      var a, b := NodeListing(dir[0], at), Listing(dir[1..], at);
      NodeListingDistinct(dir[0], at);
      ListingDistinct(dir[1..], at);
      NodeListedUnder(dir[0], at);
      ListedUnder(dir[1..], at);
      forall i, j | 0 <= i < |a| && 0 <= j < |b| ensures a[i].0 != b[j].0 {
        assert Under(at, dir[0].name, a[i].0) && UnderOne(at, Names(dir[1..]), b[j].0);
      }
    }
  }

  lemma {:induction false} NodeListingDistinct(node: Node, at: string)
    requires ValidNode(node)
    ensures PathsDistinct(NodeListing(node, at))
    decreases node, 1
  {
    if node.Dir? {
      ListingDistinct(node.entries, Below(at, node.name));
      NodeListedUnder(node, at);
    }
  }

  predicate PathsDistinct(listing: seq<(string, bool)>) {
    forall i, j | 0 <= i < j < |listing| :: listing[i].0 != listing[j].0
  }

  predicate Proper(root: string, path: string) {
    root < path && path[|path| - 1] != '/'
  }

  lemma {:induction false} ListingProper(dir: seq<Node>, root: string, at: string)
    requires ValidDir(dir) && IsPrefix(root, at)
    ensures forall i | 0 <= i < |Listing(dir, at)| :: Proper(root, Listing(dir, at)[i].0)
    decreases dir, 0
  {
    if dir != [] {
      NodeListingProper(dir[0], root, at);
      ListingProper(dir[1..], root, at);
    }
  }

  lemma {:induction false} NodeListingProper(node: Node, root: string, at: string)
    requires ValidNode(node) && IsPrefix(root, at)
    ensures forall i | 0 <= i < |NodeListing(node, at)| :: Proper(root, NodeListing(node, at)[i].0)
    decreases node, 1
  {
    var path := Below(at, node.name);
    assert path[..|root|] == root && |root| < |path|;
    assert path[|path| - 1] == node.name[|node.name| - 1] != '/';
    assert NodeListing(node, at)[0].0 == path;
    if node.Dir? {
      ListingProper(node.entries, root, path);
    }
  }
}
