/** The normative structMap of a METS document: one div for every path of the package, empty directories
    included (worker/worker/clientScripts/create_mets_v2.py). */
module NormativeStructMap {
  import opened Text
  import opened DirTree

  datatype Item = Item(isDir: bool, path: string, isEmpty: bool)

  const TRANSFERS := "objects/metadata/transfers/"

  // ---------------------------------------------------------------- the listed paths

  /** get_paths_as_fsitems: a walk from the top, files before the directories below. */
  function Walk(entries: seq<Node>, at: string): seq<Item>
    decreases entries, 1
  {
    [Item(true, at, entries == [])] + FileItems(entries, at) + DirItems(entries, at)
  }

  function FileItems(entries: seq<Node>, at: string): seq<Item> {
    if entries == [] then []
    else if entries[0].Dir? then FileItems(entries[1..], at)
    else [Item(false, Below(at, entries[0].name), false)] + FileItems(entries[1..], at)
  }

  function DirItems(entries: seq<Node>, at: string): seq<Item>
    decreases entries, 0
  {
    if entries == [] then []
    else if entries[0].File? then DirItems(entries[1..], at)
    else Walk(entries[0].entries, Below(at, entries[0].name)) + DirItems(entries[1..], at)
  }

  function PathsOf(items: seq<Item>): seq<(string, bool)> {
    if items == [] then [] else [(items[0].path, items[0].isDir)] + PathsOf(items[1..])
  }

  lemma {:induction false} PathsConcat(a: seq<Item>, b: seq<Item>)
    ensures PathsOf(a + b) == PathsOf(a) + PathsOf(b)
  {
    if a == [] {
      assert a + b == b;
    } else {
      assert (a + b)[0] == a[0] && (a + b)[1..] == a[1..] + b;
      PathsConcat(a[1..], b);
    }
  }

  /** The walk lists each path of the tree once, whatever order the walk of the tree would take. */
  lemma {:induction false} WalkListsAll(entries: seq<Node>, at: string)
    ensures multiset(PathsOf(Walk(entries, at))) == multiset{(at, true)} + multiset(Listing(entries, at))
    decreases entries, 1
  {
    var first := [Item(true, at, entries == [])];
    PathsConcat(first + FileItems(entries, at), DirItems(entries, at));
    PathsConcat(first, FileItems(entries, at));
    assert first[1..] == [];
    assert PathsOf(first) == [(at, true)];
    PartsListAll(entries, at);
  }

  lemma {:induction false} PartsListAll(entries: seq<Node>, at: string)
    ensures multiset(PathsOf(FileItems(entries, at))) + multiset(PathsOf(DirItems(entries, at)))
            == multiset(Listing(entries, at))
    decreases entries, 0
  {
    if entries != [] {
      PartsListAll(entries[1..], at);
      var n, path := entries[0], Below(at, entries[0].name);
      var files, dirs := FileItems(entries[1..], at), DirItems(entries[1..], at);
      if n.File? {
        assert ([Item(false, path, false)] + files)[1..] == files;
        assert NodeListing(n, at) == [(path, false)];
      } else {
        WalkListsAll(n.entries, path);
        PathsConcat(Walk(n.entries, path), dirs);
      }
    }
  }

  /** What the tree holds: the directory itself, which is empty or not, its files, and what its directories hold. */
  predicate Holds(item: Item, entries: seq<Node>, at: string)
    decreases entries, 1
  {
    item == Item(true, at, entries == []) || Within(item, entries, at)
  }

  predicate Within(item: Item, entries: seq<Node>, at: string)
    decreases entries, 0
  {
    entries != [] && (
      || Within(item, entries[1..], at)
      || match entries[0]
         case File(name, _) => item == Item(false, at + "/" + name, false)
         case Dir(name, below) => Holds(item, below, at + "/" + name)
    )
  }

  lemma {:induction false} PartsHold(item: Item, entries: seq<Node>, at: string)
    ensures item in FileItems(entries, at) || item in DirItems(entries, at) <==> Within(item, entries, at)
    decreases entries, 0
  {
    if entries != [] {
      PartsHold(item, entries[1..], at);
      if entries[0].Dir? {
        WalkHolds(item, entries[0].entries, Below(at, entries[0].name));
      }
    }
  }

  /** The items of a walk are those the tree holds; the directories without entries are the empty ones. */
  lemma {:induction false} WalkHolds(item: Item, entries: seq<Node>, at: string)
    ensures item in Walk(entries, at) <==> Holds(item, entries, at)
    decreases entries, 1
  {
    PartsHold(item, entries, at);
  }

  function FileNames(entries: seq<Node>): seq<string> {
    if entries == [] then []
    else if entries[0].File? then [entries[0].name] + FileNames(entries[1..])
    else FileNames(entries[1..])
  }

  /** A directory is listed before its files, and these in order before what lies below. */
  lemma {:induction false} FilesFirst(entries: seq<Node>, at: string)
    ensures var names, items := FileNames(entries), Walk(entries, at);
            |items| > |names| && items[0] == Item(true, at, entries == [])
            && forall i | 0 <= i < |names| :: items[1 + i] == Item(false, at + "/" + names[i], false)
  {
    FileItemsAre(entries, at);
  }

  lemma {:induction false} FileItemsAre(entries: seq<Node>, at: string)
    ensures var names, items := FileNames(entries), FileItems(entries, at);
            |items| == |names| && forall i | 0 <= i < |names| :: items[i] == Item(false, at + "/" + names[i], false)
  {
    if entries != [] {
      FileItemsAre(entries[1..], at);
    }
  }

  // ---------------------------------------------------------------- dirname and basename

  function Dirname(path: string): string {
    var head := path[..RFind(path, '/') + 1];
    if RStripSlashes(head) == "" then head else RStripSlashes(head)
  }

  function Basename(path: string): string {
    path[RFind(path, '/') + 1..]
  }

  lemma LastSlash(at: string, name: string)
    requires '/' !in name
    ensures RFind(Below(at, name), '/') == |at|
  {
    var path := Below(at, name);
    assert path[|at|] == '/';
    assert forall i | |at| < i < |path| :: path[i] == name[i - |at| - 1] && path[i] in name;
  }

  lemma {:induction false} StripOne(at: string)
    requires at != "" && at[|at| - 1] != '/'
    ensures RStripSlashes(at + "/") == at
  {
    assert (at + "/")[..|at|] == at;
  }

  lemma SplitBelow(at: string, name: string)
    requires '/' !in name && at != "" && at[|at| - 1] != '/'
    ensures Dirname(Below(at, name)) == at && Basename(Below(at, name)) == name
  {
    LastSlash(at, name);
    StripOne(at);
    assert Below(at, name)[..|at| + 1] == at + "/" && Below(at, name)[|at| + 1..] == name;
  }

  /** What lies directly below the root of the file system. */
  lemma SplitBelowRoot(name: string)
    requires '/' !in name
    ensures Dirname("/" + name) == "/" && Basename("/" + name) == name
  {
    LastSlash("", name);
    assert "" + "/" + name == "/" + name;
    assert ("/" + name)[..1] == "/" && RStripSlashes("/") == "";
  }

  // ---------------------------------------------------------------- the tree of divs

  /** A div, with the number of its parent; the root div has number 0. */
  datatype Div = Div(parent: nat, isDir: bool, title: string, dmdId: Option<nat>)

  /** The elements so far, the index of paths, and the counter and list of dmdSecs of the document. */
  datatype Tree = Tree(elements: seq<Div>, pathToEl: map<string, nat>, counter: nat, dmdSecs: seq<(nat, string)>)

  function Root(title: string, counter: nat, dmdSecs: seq<(nat, string)>): Tree {
    Tree([Div(0, true, title, None)], map["" := 0], counter, dmdSecs)
  }

  predicate Skipped(item: Item) {
    item.isEmpty && IsPrefix(TRANSFERS, item.path)
  }

  /** One item; None where its parent is not in the index. */
  function AddItem(t: Tree, item: Item): Option<Tree> {
    if Dirname(item.path) !in t.pathToEl then None
    else
      var el := Div(t.pathToEl[Dirname(item.path)], item.isDir, Basename(item.path), None);
      if Skipped(item) then Some(t.(elements := t.elements + [el]))
      else if item.isEmpty then
        var id := t.counter + 1;
        Some(Tree(
          t.elements + [el.(dmdId := Some(id))], t.pathToEl[item.path := |t.elements|], id,
          t.dmdSecs + [(id, "%SIPDirectory%" + item.path)]))
      else Some(t.(elements := t.elements + [el], pathToEl := t.pathToEl[item.path := |t.elements|]))
  }

  function Build(t: Tree, items: seq<Item>): Option<Tree>
    decreases |items|
  {
    if items == [] then Some(t)
    else
      match AddItem(t, items[0])
      case None => None
      case Some(t1) => Build(t1, items[1..])
  }

  lemma BuildFrom(t: Tree, items: seq<Item>, i: nat)
    requires i < |items|
    ensures AddItem(t, items[i]).None? ==> Build(t, items[i..]).None?
    ensures AddItem(t, items[i]).Some? ==> Build(t, items[i..]) == Build(AddItem(t, items[i]).value, items[i + 1..])
  {
    assert items[i..][0] == items[i] && items[i..][1..] == items[i + 1..];
  }

  class NormativeBuilder {
    var elements: seq<Div>
    var pathToEl: map<string, nat>
    var counter: nat
    var dmdSecs: seq<(nat, string)>

    function View(): Tree
      reads this
    {
      Tree(elements, pathToEl, counter, dmdSecs)
    }

    constructor (title: string, counter: nat, dmdSecs: seq<(nat, string)>)
      ensures View() == Root(title, counter, dmdSecs)
    {
      elements, pathToEl := [Div(0, true, title, None)], map["" := 0];
      this.counter, this.dmdSecs := counter, dmdSecs;
    }

    /** add_normative_structmap_div; ok is false where the source raises a KeyError. */
    method AddNormativeStructMapDivs(items: seq<Item>) returns (ok: bool)
      modifies this
      ensures ok <==> Build(old(View()), items).Some?
      ensures ok ==> View() == Build(old(View()), items).value
    {
      ok := true;
      var i := 0;
      while i < |items| && ok
        invariant i <= |items|
        invariant ok ==> Build(old(View()), items) == Build(View(), items[i..])
        invariant !ok ==> Build(old(View()), items).None?
      {
        BuildFrom(View(), items, i);
        ok := AddDiv(items[i]);
        i := i + 1;
      }
    }

    /** The body of its loop. */
    method AddDiv(fsitem: Item) returns (ok: bool)
      modifies this
      ensures ok <==> AddItem(old(View()), fsitem).Some?
      ensures ok ==> View() == AddItem(old(View()), fsitem).value
    {
      if Dirname(fsitem.path) !in pathToEl {
        return false;
      }
      var el := Div(pathToEl[Dirname(fsitem.path)], fsitem.isDir, Basename(fsitem.path), None);
      if fsitem.isEmpty {
        if IsPrefix(TRANSFERS, fsitem.path) {
          elements := elements + [el];
          return true;
        }
        counter := counter + 1;
        dmdSecs := dmdSecs + [(counter, "%SIPDirectory%" + fsitem.path)];
        el := el.(dmdId := Some(counter));
      }
      pathToEl := pathToEl[fsitem.path := |elements|];
      elements := elements + [el];
      ok := true;
    }
  }

  // ---------------------------------------------------------------- no parent is missed

  lemma {:induction false} BuildConcat(t: Tree, a: seq<Item>, b: seq<Item>)
    requires Build(t, a).Some?
    ensures Build(t, a + b) == Build(Build(t, a).value, b)
    decreases |a|
  {
    if a == [] {
      assert a + b == b;
    } else {
      assert (a + b)[0] == a[0] && (a + b)[1..] == a[1..] + b;
      BuildConcat(AddItem(t, a[0]).value, a[1..], b);
    }
  }

  /** Every path of an earlier index is in a later one. */
  predicate Extends(t: Tree, t': Tree) {
    t.pathToEl.Keys <= t'.pathToEl.Keys
  }

  predicate ProperDir(at: string) {
    at != "" && at[|at| - 1] != '/'
  }

  lemma BelowProper(at: string, name: string)
    requires ProperDir(at) && ValidName(name)
    ensures ProperDir(Below(at, name)) && Dirname(Below(at, name)) == at
  {
    SplitBelow(at, name);
    assert Below(at, name)[|Below(at, name)| - 1] == name[|name| - 1];
  }

  lemma {:induction false} FilesFindParent(t: Tree, entries: seq<Node>, at: string)
    requires ValidDir(entries) && ProperDir(at) && at in t.pathToEl
    ensures Build(t, FileItems(entries, at)).Some? && Extends(t, Build(t, FileItems(entries, at)).value)
    decreases |entries|
  {
    if entries != [] {
      if entries[0].Dir? {
        FilesFindParent(t, entries[1..], at);
      } else {
        var item := Item(false, Below(at, entries[0].name), false);
        BelowProper(at, entries[0].name);
        FilesFindParent(AddItem(t, item).value, entries[1..], at);
        assert FileItems(entries, at)[1..] == FileItems(entries[1..], at);
      }
    }
  }

  lemma {:induction false} DirsFindParent(t: Tree, entries: seq<Node>, at: string)
    requires ValidDir(entries) && ProperDir(at) && at in t.pathToEl
    ensures Build(t, DirItems(entries, at)).Some? && Extends(t, Build(t, DirItems(entries, at)).value)
    decreases entries, 0
  {
    if entries != [] {
      if entries[0].File? {
        DirsFindParent(t, entries[1..], at);
      } else {
        var path := Below(at, entries[0].name);
        BelowProper(at, entries[0].name);
        var walk := Walk(entries[0].entries, path);
        WalkFindsParents(t, entries[0].entries, path);
        BuildConcat(t, walk, DirItems(entries[1..], at));
        DirsFindParent(Build(t, walk).value, entries[1..], at);
      }
    }
  }

  /** Top-down order: whenever an item is added its parent is in the index, even though empty directories below
      the transfer metadata never enter it. */
  lemma {:induction false} WalkFindsParents(t: Tree, entries: seq<Node>, at: string)
    requires ValidDir(entries) && ProperDir(at) && Dirname(at) in t.pathToEl
    ensures Build(t, Walk(entries, at)).Some? && Extends(t, Build(t, Walk(entries, at)).value)
    decreases entries, 1
  {
    var first := Item(true, at, entries == []);
    var t1 := AddItem(t, first).value;
    assert Walk(entries, at)[1..] == FileItems(entries, at) + DirItems(entries, at);
    if entries == [] {
      assert Walk(entries, at)[1..] == [];
    } else {
      FilesFindParent(t1, entries, at);
      BuildConcat(t1, FileItems(entries, at), DirItems(entries, at));
      DirsFindParent(Build(t1, FileItems(entries, at)).value, entries, at);
    }
  }

  // ---------------------------------------------------------------- the paths of the tree

  predicate WellFormed(elements: seq<Div>) {
    elements != [] && forall i | 0 < i < |elements| :: elements[i].parent < i
  }

  /** The labels from below the root down to an element. */
  function PathOf(elements: seq<Div>, i: nat): string
    requires WellFormed(elements) && i < |elements|
    decreases i
  {
    if i == 0 then ""
    else
      var above := PathOf(elements, elements[i].parent);
      if above == "" then elements[i].title else Below(above, elements[i].title)
  }

  lemma {:induction false} PathStays(elements: seq<Div>, el: Div, i: nat)
    requires WellFormed(elements) && el.parent < |elements| && i < |elements|
    ensures WellFormed(elements + [el]) && PathOf(elements + [el], i) == PathOf(elements, i)
    decreases i
  {
    if i > 0 {
      PathStays(elements, el, elements[i].parent);
    }
  }

  /** Dirname and basename put together give the path again. */
  predicate Splits(path: string) {
    path == if Dirname(path) == "" then Basename(path) else Below(Dirname(path), Basename(path))
  }

  predicate Indexed(t: Tree) {
    && WellFormed(t.elements)
    && forall p | p in t.pathToEl :: t.pathToEl[p] < |t.elements| && PathOf(t.elements, t.pathToEl[p]) == p
  }

  lemma AddItemIndexed(t: Tree, item: Item)
    requires Indexed(t) && Splits(item.path) && AddItem(t, item).Some?
    ensures var t' := AddItem(t, item).value;
            && Indexed(t') && |t'.elements| == |t.elements| + 1
            && PathOf(t'.elements, |t.elements|) == item.path
            && forall i | 0 <= i < |t.elements| :: PathOf(t'.elements, i) == PathOf(t.elements, i)
  {
    var t' := AddItem(t, item).value;
    var el := t'.elements[|t.elements|];
    assert t'.elements == t.elements + [el];
    forall i | 0 <= i < |t.elements|
      ensures WellFormed(t'.elements) && PathOf(t'.elements, i) == PathOf(t.elements, i)
    {
      PathStays(t.elements, el, i);
    }
    assert PathOf(t.elements, el.parent) == Dirname(item.path);
  }

  /** An empty directory outside the transfer metadata. */
  predicate Described(item: Item) {
    item.isEmpty && !IsPrefix("objects/metadata/transfers/", item.path)
  }

  function DescribedCount(items: seq<Item>): nat {
    if items == [] then 0 else (if Described(items[0]) then 1 else 0) + DescribedCount(items[1..])
  }

  /** The new dmdSecs have the numbers after the counter. */
  predicate Numbered(t: Tree, t': Tree, n: nat) {
    && t.dmdSecs <= t'.dmdSecs && |t'.dmdSecs| == |t.dmdSecs| + n && t'.counter == t.counter + n
    && forall k | |t.dmdSecs| <= k < |t'.dmdSecs| :: t'.dmdSecs[k].0 == t.counter + 1 + (k - |t.dmdSecs|)
  }

  lemma NumberedTwice(t: Tree, t1: Tree, t2: Tree, n: nat, m: nat)
    requires Numbered(t, t1, n) && Numbered(t1, t2, m)
    ensures Numbered(t, t2, n + m)
  {
    assert forall k | 0 <= k < |t1.dmdSecs| :: t2.dmdSecs[k] == t1.dmdSecs[k];
  }

  lemma {:induction false} BuildNumbers(t: Tree, items: seq<Item>)
    requires Build(t, items).Some?
    ensures Numbered(t, Build(t, items).value, DescribedCount(items))
    decreases |items|
  {
    if items != [] {
      var t1 := AddItem(t, items[0]).value;
      BuildNumbers(t1, items[1..]);
      assert Numbered(t, t1, if Described(items[0]) then 1 else 0);
      NumberedTwice(
        t, t1, Build(t, items).value, if Described(items[0]) then 1 else 0, DescribedCount(items[1..]));
    }
  }

  /** What holds of the element made for an item: its path, its type, and a dmdSec of its own exactly for empty
      directories outside the transfer metadata. */
  predicate Documents(t: Tree, i: nat, item: Item)
    requires WellFormed(t.elements) && i < |t.elements|
  {
    && PathOf(t.elements, i) == item.path && t.elements[i].isDir == item.isDir
    && (t.elements[i].dmdId.Some? <==> Described(item))
    && (t.elements[i].dmdId.Some? ==> (t.elements[i].dmdId.value, "%SIPDirectory%" + item.path) in t.dmdSecs)
  }

  /** The later elements leave the earlier ones as they are. */
  predicate Grown(t: Tree, t': Tree)
    requires WellFormed(t.elements)
  {
    && WellFormed(t'.elements) && |t.elements| <= |t'.elements| && t.dmdSecs <= t'.dmdSecs
    && forall i | 0 <= i < |t.elements| ::
         t'.elements[i] == t.elements[i] && PathOf(t'.elements, i) == PathOf(t.elements, i)
  }

  /** The elements from a number on document the items one by one. */
  predicate DocumentsAll(t: Tree, from: nat, items: seq<Item>)
    requires WellFormed(t.elements) && from + |items| <= |t.elements|
    decreases |items|
  {
    items == [] || (Documents(t, from, items[0]) && DocumentsAll(t, from + 1, items[1..]))
  }

  lemma {:induction false} BuildDocuments(t: Tree, items: seq<Item>)
    requires Indexed(t) && Build(t, items).Some? && AllSplit(items)
    ensures var t' := Build(t, items).value;
            && Indexed(t') && Grown(t, t') && |t'.elements| == |t.elements| + |items|
            && DocumentsAll(t', |t.elements|, items)
    decreases |items|
  {
    if items != [] {
      FirstDocumented(t, items[0], items);
      var t1 := AddItem(t, items[0]).value;
      BuildDocuments(t1, items[1..]);
      GrownDocuments(t1, Build(t, items).value, |t.elements|, items[0]);
    }
  }

  predicate AllSplit(items: seq<Item>) {
    forall item | item in items :: Splits(item.path)
  }

  lemma FirstDocumented(t: Tree, item: Item, items: seq<Item>)
    requires Indexed(t) && AllSplit(items) && items != [] && item == items[0] && AddItem(t, item).Some?
    ensures var t1 := AddItem(t, item).value;
            && Indexed(t1) && Grown(t, t1) && |t1.elements| == |t.elements| + 1
            && Documents(t1, |t.elements|, item) && AllSplit(items[1..])
  {
    assert item in items;
    AddItemIndexed(t, item);
  }

  lemma GrownDocuments(t: Tree, t': Tree, i: nat, item: Item)
    requires WellFormed(t.elements) && Grown(t, t') && i < |t.elements| && Documents(t, i, item)
    ensures Documents(t', i, item)
  {
  }

  // ---------------------------------------------------------------- the whole structMap

  lemma {:induction false} WalkSplits(entries: seq<Node>, at: string)
    requires ValidDir(entries) && ProperDir(at) && Splits(at)
    ensures AllSplit(Walk(entries, at))
    decreases entries, 1
  {
    FilesSplit(entries, at);
    DirsSplit(entries, at);
  }

  lemma {:induction false} FilesSplit(entries: seq<Node>, at: string)
    requires ValidDir(entries) && ProperDir(at)
    ensures AllSplit(FileItems(entries, at))
  {
    if entries != [] {
      SplitBelow(at, entries[0].name);
      FilesSplit(entries[1..], at);
    }
  }

  lemma {:induction false} DirsSplit(entries: seq<Node>, at: string)
    requires ValidDir(entries) && ProperDir(at)
    ensures AllSplit(DirItems(entries, at))
    decreases entries, 0
  {
    if entries != [] {
      SplitBelow(at, entries[0].name);
      BelowProper(at, entries[0].name);
      if entries[0].Dir? {
        WalkSplits(entries[0].entries, Below(at, entries[0].name));
      }
      DirsSplit(entries[1..], at);
    }
  }

  /** For every directory tree: no parent is missed, there is one div for each listed item, in order, with the
      path of the item, and the items are exactly the directory and all paths below it, each once; the empty
      directories outside the transfer metadata have dmdSecs with consecutive numbers. */
  lemma NormativePaths(entries: seq<Node>, top: string, title: string, counter: nat, dmdSecs: seq<(nat, string)>)
    requires ValidDir(entries) && ValidName(top)
    ensures var items, root := Walk(entries, top), Root(title, counter, dmdSecs);
            var built := Build(root, items);
            && built.Some? && WellFormed(built.value.elements) && |built.value.elements| == 1 + |items|
            && built.value.elements[0] == Div(0, true, title, None) && DocumentsAll(built.value, 1, items)
            && Numbered(root, built.value, DescribedCount(items))
            && multiset(PathsOf(items)) == multiset{(top, true)} + multiset(Listing(entries, top))
  {
    var root := Root(title, counter, dmdSecs);
    assert '/' !in top && top[|top| - 1] in top;
    WalkFindsParents(root, entries, top);
    WalkSplits(entries, top);
    BuildDocuments(root, Walk(entries, top));
    BuildNumbers(root, Walk(entries, top));
    WalkListsAll(entries, top);
  }
}
